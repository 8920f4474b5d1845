# Conference contributions: talk scheduling and poster checks

This project models the core of `pagepy/contributions_abstracts.py`, the part of a
conference web-page generator that turns the table of submitted abstracts into the
sorted list of talks and the sorted list of posters.

- **The day table.** A fixed map from three-character day codes (`Sun` … `Sat`, plus
  `""` and `TBA` for talks without a day) to calendar dates.
- **The time parser `parse_day_time`.**
  - It picks the start or end half of a range such as `"14:30 - 15:15"`.
  - It reads the hour and minute in Python's `int(s.strip())` dialect.
  - It places unscheduled talks (time `""` or `TBA`) at 19:00.
  - It fails exactly where the Python code raises, in the same order: a missing end
    half, an unknown day code, a non-integer part, a missing minute, then an hour or
    minute out of range.
- **The `data()` pass.**
  1. It drops rows without a `Timestamp`.
  2. It splits the author and affiliation lists on `;`.
  3. It classifies each row as a talk, a poster or neither.
  4. It sorts the talks. With `day` and `time` columns, they are sorted by start time.
     Otherwise they are sorted by `type` and reversed, so invited talks precede
     contributed ones.
  5. It numbers the posters "TBA" when the table has no `poster number` column, and
     sorts them by number and authors.
  6. It produces the three diagnostics the program prints:
     - a warning that the poster numbers are not integers;
     - the numbers used more than once;
     - the rows that are neither talk nor poster.

Modules:

- `Wrappers` holds `Option` and `Result`.
- `Text` models the Python string operations the code relies on: `split`, `strip`,
  `int()` and slicing.
- `Order` models the order numpy uses to sort table rows: code points for strings,
  lexicographic order for multi-column keys.
- `Schedule` models the day table and `parse_day_time`.
- `Submissions` models `data()`. The table sort and reverse are in-place methods on
  arrays. The diagnostics the program prints are returned as values of the
  `Diagnostic` datatype.

## Model

| member | source | states |
|---|---|---|
| Text.Split | pagepy/contributions_abstracts.py:46 | `str.split` always returns at least one piece, no piece contains the separator, and joining the pieces with the separator gives the string back |
| Text.SplitJoin | pagepy/contributions_abstracts.py:54-55 | splitting a join of separator-free pieces gives those pieces back, so the author list is exactly the `;`-separated names |
| Text.Strip | pagepy/contributions_abstracts.py:48 | the stripped text neither starts nor ends with a Python whitespace character |
| Text.StripRemovesPadding | pagepy/contributions_abstracts.py:48 | stripping removes only whitespace, and only from the two ends |
| Text.StripPadded | pagepy/contributions_abstracts.py:48 | whitespace padding around a text that neither starts nor ends with whitespace is removed exactly |
| Text.ParseInt | pagepy/contributions_abstracts.py:48 | `int()` accepts exactly an optional `+` or `-` followed by one or more ASCII digits, and its value is the digits' decimal value, negated after `-` |
| Text.DecimalRoundTrip | pagepy/contributions_abstracts.py:48 | `int()` reads back the decimal spelling of every non-negative integer |
| Text.SignedRoundTrip | pagepy/contributions_abstracts.py:48 | `int()` reads back `str(n)` for every integer, negative ones included |
| Text.Prefix | pagepy/contributions_abstracts.py:62 | the slice `[:3]` is the first three characters, or the whole string when it is shorter |
| Order.StrLeTotal | pagepy/contributions_abstracts.py:65 | string comparison is total |
| Order.StrLeTransitive | pagepy/contributions_abstracts.py:65 | string comparison is transitive |
| Order.StrLeAntisymmetric | pagepy/contributions_abstracts.py:65 | strings that compare both ways are equal |
| Order.ValueLeTotal | pagepy/contributions_abstracts.py:71 | any two sort cells are comparable |
| Order.ValueLeTransitive | pagepy/contributions_abstracts.py:71 | the order of sort cells is transitive |
| Order.ValueLeAntisymmetric | pagepy/contributions_abstracts.py:71 | cells that compare both ways are equal |
| Order.KeyLeTotal | pagepy/contributions_abstracts.py:71 | any two multi-column sort keys are comparable |
| Order.KeyLeTransitive | pagepy/contributions_abstracts.py:71 | the lexicographic key order is transitive, so sorting by it is well defined |
| Order.KeyLeHead | pagepy/contributions_abstracts.py:71 | keys in order have their first columns in order |
| Schedule.DayTable | pagepy/contributions_abstracts.py:5-14 | the `Dates` table holds exactly the codes `""`, `TBA` and `Sun` … `Sat`; the two unassigned codes share Monday 30 July 2018; the week runs from 29 July to 4 August 2018; no code is longer than three characters |
| Schedule.ClockFields | pagepy/contributions_abstracts.py:42-46 | at least one clock text is produced; this step fails, with the missing-end-time error, exactly when the end time is asked of a non-default time that contains no `-` |
| Schedule.ClockOnDay | pagepy/contributions_abstracts.py:47-48 | a timestamp is produced exactly when the day code is in the table, the clock has a minute part, and both parts read as integers with the hour in 0..23 and the minute in 0..59; it is on that day's date with those values; an unknown day code fails with exactly that error |
| Schedule.ParseDayTime | pagepy/contributions_abstracts.py:20-48 | every timestamp returned is on the date of a day code in the table, with a valid hour and minute |
| Schedule.DefaultsToEvening | pagepy/contributions_abstracts.py:43-44 | a time of `""` or `TBA` gives 19:00 on the day's date, for the start and the end alike, and an unknown day still fails |
| Schedule.PicksHalf | pagepy/contributions_abstracts.py:42-46 | for a range `start-finish`, the parser reads `start` for the start time and `finish` for the end time |
| Schedule.PicksPiece | pagepy/contributions_abstracts.py:42-46 | for any non-default time string with however many '-', the start time is read from the first '-'-separated piece and the end time from the second, and any later piece is ignored |
| Schedule.MalformedRanges | pagepy/contributions_abstracts.py:46-48 | a time with no `-` has no end time, and a half with no `:` has no minutes |
| Schedule.ParsesRange | pagepy/contributions_abstracts.py:42-48 | a range of two well-formed clocks, whitespace and leading zeros allowed, parses to the chosen clock's hour and minute on the day's date |
| Schedule.UnknownDayFails | pagepy/contributions_abstracts.py:47 | a day code outside the table fails with the unknown-day error, whatever the range |
| Schedule.TimeKeyChronological | pagepy/contributions_abstracts.py:63 | sorting by the timestamp key is chronological order |
| Submissions.Submitted | pagepy/contributions_abstracts.py:53 | the kept rows are exactly the rows with a timestamp, each as often as in the table; their order is the table's, by `SubmittedAppend` and `SubmittedOne` |
| Submissions.SubmittedAppend | pagepy/contributions_abstracts.py:53 | the timestamp mask keeps table order: filtering two stretches of rows one after the other is filtering each and concatenating |
| Submissions.SubmittedOne | pagepy/contributions_abstracts.py:53 | a single row is kept exactly when its timestamp is present |
| Submissions.AnnotatedAppend | pagepy/contributions_abstracts.py:54-55 | the author and affiliation lists are added row by row, keeping the order of the rows |
| Submissions.Annotate | pagepy/contributions_abstracts.py:54-55 | the author and affiliation lists are non-empty, free of `;`, and join back with `;` to the original cells; the row itself is unchanged |
| Submissions.ClassOf | pagepy/contributions_abstracts.py:57-58 | a row is a talk exactly when its `type` is `invited` or `contributed`, and a poster exactly when it is `poster` |
| Submissions.Select | pagepy/contributions_abstracts.py:57-60 | a class selection holds exactly the entries of that class, each as often as in the input; their order is the input's, by `SelectAppend` and `SelectOne` |
| Submissions.SelectAppend | pagepy/contributions_abstracts.py:60 | the class mask keeps input order: selecting from two stretches of entries is selecting from each and concatenating |
| Submissions.SelectOne | pagepy/contributions_abstracts.py:57-60 | a single entry is selected exactly when its `type` belongs to the class |
| Submissions.ClassInTableOrder | pagepy/contributions_abstracts.py:53-87 | the talks, the posters and the unclassified entries each come in table order: the class drawn from two stretches of rows is the first stretch's class followed by the second's |
| Submissions.Partition | pagepy/contributions_abstracts.py:57-58 | talks, posters and unclassified entries together are exactly the kept entries |
| Submissions.SelectMembers | pagepy/contributions_abstracts.py:57-58 | an entry is in a class exactly when its `type` selects that class |
| Submissions.DroppedRowsVanish | pagepy/contributions_abstracts.py:53-55 | every kept entry has a timestamp and comes from a row of the table |
| Submissions.StartTime | pagepy/contributions_abstracts.py:62 | a talk's start time, read on the first three characters of its `day` cell, falls on that code's date with hour 0-23 and minute 0-59; an unknown code fails with that code; a start time never fails for a missing end |
| Submissions.UnscheduledStartsInEvening | pagepy/contributions_abstracts.py:62 | a talk with time "" or "TBA" starts at 19:00 on its day's date, or fails with its unknown day code |
| Submissions.StartReadsFirstHalf | pagepy/contributions_abstracts.py:62 | a talk with time `start-finish` starts at the clock reading of `start` |
| Submissions.ScheduleTalks | pagepy/contributions_abstracts.py:62 | the start-time column is added exactly when every talk's time parses; each talk gets its own start time; otherwise the first failure is reported |
| Submissions.KeyOf | pagepy/contributions_abstracts.py:63-71 | the talk sort of line 63 keys on the five cells of `binary_time`; the fallback sort of line 65 keys on `type` alone; the poster sort of line 71 keys on the poster number, then `Authors` |
| Submissions.ExpectedTalks | pagepy/contributions_abstracts.py:57-62 | without `day` and `time` columns the talks are the classified talks unchanged; with them, the pass succeeds exactly when every talk's start time parses, each talk then gets its own start time, and a failure is the failure of the first talk that fails; the talks are in table order by `ClassInTableOrder` |
| Submissions.SortTable | pagepy/contributions_abstracts.py:63 | after the table sort the rows are in key order and are a permutation of the rows before |
| Submissions.ReverseTable | pagepy/contributions_abstracts.py:66 | after `reverse()` the rows are the old rows in the opposite order |
| Submissions.ReversedPermutes | pagepy/contributions_abstracts.py:66 | reversing keeps the same rows |
| Submissions.ReversedSortIsDescending | pagepy/contributions_abstracts.py:65-66 | sorting by `type` and then reversing orders the talks by descending `type` |
| Submissions.InvitedBeforeContributed | pagepy/contributions_abstracts.py:66 | in that order every invited talk precedes every contributed talk |
| Submissions.ScheduledTalksChronological | pagepy/contributions_abstracts.py:62-63 | talks sorted by start time are in chronological order |
| Submissions.ArrangeTalks | pagepy/contributions_abstracts.py:61-66 | the talks come out a permutation of the talks in: sorted and chronological when scheduled, in descending `type` order otherwise |
| Submissions.ArrangePosters | pagepy/contributions_abstracts.py:71 | the posters come out a permutation of the posters in, sorted by (number, authors) |
| Submissions.Arrange | pagepy/contributions_abstracts.py:61-91 | the talks come out a permutation of the talks in, sorted and chronological when scheduled and in descending `type` order otherwise; the posters come out a permutation of the posters in, sorted by (number, authors); the diagnostics are the number warning, then the corrected duplicate report on the sorted numbers, then the unclassified report |
| Submissions.ExpectedPosters | pagepy/contributions_abstracts.py:68-70 | the posters keep their order and every column but the number; the number is "TBA" when the table has no `poster number` column and unchanged otherwise |
| Submissions.PostersWithoutNumbers | pagepy/contributions_abstracts.py:69-70 | with no `poster number` column every poster is numbered "TBA" |
| Submissions.SameNumberByAuthors | pagepy/contributions_abstracts.py:71 | posters sharing one number, such as all "TBA", are sorted by authors |
| Submissions.SortedNumbers | pagepy/contributions_abstracts.py:71 | posters sorted by (number, authors) have their numbers in order |
| Submissions.Unique | pagepy/contributions_abstracts.py:77-78 | there are at most as many tallies as rows, every tally counts at least one row, and the counts add up to the number of rows |
| Submissions.UniqueTallies | pagepy/contributions_abstracts.py:77-78 | on the sorted column, the unique values are the values present, strictly increasing, each with its number of occurrences |
| Submissions.TalliedValuesPresent | pagepy/contributions_abstracts.py:77-78 | every unique value occurs in the column |
| Submissions.ValuesTallied | pagepy/contributions_abstracts.py:77-78 | every value of the column has a tally |
| Submissions.UniqueAscending | pagepy/contributions_abstracts.py:77-78 | on a sorted column the unique values are strictly increasing |
| Submissions.NumberWarning | pagepy/contributions_abstracts.py:74-75 | the warning is printed exactly when the number column is not stored as integers, which includes the "TBA" column added when there is none |
| Submissions.DuplicateLinesAsWritten | pagepy/contributions_abstracts.py:79-83 | as written, the report raises exactly when there is one tally and it counts more than one row; it is empty exactly when no number repeats; otherwise every line after the header carries the second tally's count (which numbers get a line is stated by `AsWrittenNamesRepeatedNumbers`) |
| Submissions.AsWrittenNamesRepeatedNumbers | pagepy/contributions_abstracts.py:79-83 | as written, the lines after the header name exactly the numbers whose tally exceeds one, each with the second tally's count; when the tallies are in increasing order of number, so are the lines |
| Submissions.AsWrittenRecounts | pagepy/contributions_abstracts.py:81-83 | the as-written lines are the corrected lines one for one, in the same order and with the same numbers, with only the printed count changed |
| Submissions.AsWrittenLinesSound | pagepy/contributions_abstracts.py:81-83 | every as-written line names a number whose tally exceeds one, with the printed count |
| Submissions.AsWrittenLinesComplete | pagepy/contributions_abstracts.py:81-83 | every number whose tally exceeds one has an as-written line, with the printed count |
| Submissions.AsWrittenLinesAscending | pagepy/contributions_abstracts.py:81-83 | on increasing tallies the as-written lines are in increasing order of number |
| Submissions.AsWrittenMisreportsCount | pagepy/contributions_abstracts.py:79-83 | as written, the numbers 1, 1, 2, 2, 2 report number 1 as used 3 times while it is used twice |
| Submissions.AsWrittenFailsOnSingleNumber | pagepy/contributions_abstracts.py:79-83 | as written, a column of at least two equal numbers has a single unique value, and indexing the second count fails |
| Submissions.AsWrittenFailsWithoutNumbers | pagepy/contributions_abstracts.py:69-83 | as written, a table with no `poster number` column and two or more posters makes the duplicate report fail |
| Submissions.CorrectedReportsOwnCount | pagepy/contributions_abstracts.py:79-83 | the corrected report gives 1, 1, 2, 2, 2 the counts 2 and 3 |
| Submissions.DuplicateLinesReported | pagepy/contributions_abstracts.py:79-83 | the corrected report has a header exactly when some number repeats; it has one line for each repeated number, with that number's own count, in increasing order, and none for the others |
| Submissions.ReportDuplicates | pagepy/contributions_abstracts.py:77-83 | the duplicate check loop produces the corrected report for the sorted poster numbers |
| Submissions.ReportUnclassified | pagepy/contributions_abstracts.py:87-91 | nothing is reported when every entry is a talk or a poster; otherwise a header, then the timestamp, type and title of each unclassified entry in the order received, which is table order by `ClassInTableOrder` |
| Submissions.Data | pagepy/contributions_abstracts.py:53-93 | `data()` fails exactly when a talk time fails to parse, with that error. Otherwise: the talks are a permutation of the classified talks, in chronological order when scheduled and in descending `type` order otherwise; the posters are a permutation of the numbered posters, in (number, authors) order; the diagnostics are the number-type warning, then the corrected duplicate report, then the unclassified report |

## Left out

- Reading the spreadsheet is not modelled. The model starts from a `Table` value holding the rows and flags that say which optional columns exist.
- The masked-cell semantics of astropy reduce to an optional `Timestamp` cell. Other masked cells are not modelled.
- numpy's integer dtype test is the `NumberColumn` flag of the table. It is not derived from the cell values.
- Sort stability is not modelled. The source does not ask for a stable sort, so `SortTable` promises only key order and a permutation.
- Submissions.ReportDuplicates: has `requires ValuesSorted`. numpy's unique sorts its input itself; here the column is already sorted by the poster sort before it, and `Data` discharges that precondition.
- Order.ValueLe: puts every integer cell before every text cell. The source never mixes the two in one column.
- Order.StrLe: does not model numpy's fixed-width string storage.
- Text.ParseInt: reads an optional sign and ASCII digits only. Python's `int()` also accepts underscores between digits and non-ASCII decimal digits.
- The text of the printed messages is not modelled. They are `Diagnostic` values, and the message wording and number formatting are left out.
- Schedule.ParseDayTime: returns the year, month, day, hour and minute of the `datetime`. Seconds and time zones are not involved.
- Submissions.Data: uses the corrected duplicate report. The source as written raises or misreports, as shown under Findings.

## Findings

| source | as written | input that shows it | evidently intended | confidence | as-written member | corrected member |
|---|---|---|---|---|---|---|
| pagepy/contributions_abstracts.py:82-83 | each duplicated number is printed with the count of the second unique value | poster numbers 1, 1, 2, 2, 2: number 1 is reported as used by 3 posters | each number printed with its own count | not executed | Submissions.AsWrittenMisreportsCount | Submissions.CorrectedReportsOwnCount |
| pagepy/contributions_abstracts.py:69-83 | the second unique count is indexed even when there is only one unique value | no `poster number` column and two posters: every poster is "TBA", and indexing the second count raises `IndexError` | "TBA" is reported as used by every poster | not executed | Submissions.AsWrittenFailsWithoutNumbers | Submissions.DuplicateLinesReported |
