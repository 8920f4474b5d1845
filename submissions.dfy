/**
 * The classification and sorting pass of `data()`: rows of the abstract
 * table are filtered, split into talks, posters and unclassified
 * entries, the talks and posters are sorted, and the data-quality
 * diagnostics the program prints are returned as data.
 */
module Submissions {
  import opened Wrappers
  import opened Text
  import opened Order
  import opened Schedule

  /** One row of the abstract table; a masked `Timestamp` cell is `None`. */
  datatype Row = Row(
    submitted: Option<string>,
    authors: string,
    affiliations: string,
    kind: string,   // the `type` column
    title: string,
    day: string,
    time: string,
    posterNumber: Value)

  /** Whether the table has a `poster number` column, and whether numpy stores it as integers. */
  datatype NumberColumn = NoNumberColumn | IntegerNumbers | OtherNumbers

  /** The table as read from the spreadsheet: its rows and which optional columns it has. */
  datatype Table = Table(rows: seq<Row>, hasDay: bool, hasTime: bool, numbers: NumberColumn)

  /** A row with the columns `data()` adds: `authorlist`, `affillist` and, for scheduled talks, `binary_time`. */
  datatype Entry = Entry(row: Row, authorList: seq<string>, affilList: seq<string>, binaryTime: Option<DateTime>)

  datatype Class = Talk | Poster | Unclassified

  /** The class of a row by its `type` cell; the comparison is exact. */
  function ClassOf(kind: string): (c: Class)
    ensures c == Talk <==> kind == "invited" || kind == "contributed"
    ensures c == Poster <==> kind == "poster"
  {
    if kind == "invited" || kind == "contributed" then Talk
    else if kind == "poster" then Poster
    else Unclassified
  }

  /** The rows whose `Timestamp` cell is not masked, in table order. */
  function Submitted(rows: seq<Row>): (kept: seq<Row>)
    ensures forall r :: multiset(kept)[r] == if r.submitted.Some? then multiset(rows)[r] else 0
    ensures forall k :: 0 <= k < |kept| ==> kept[k].submitted.Some?
    decreases |rows|
  {
    if rows == [] then []
    else
      var rest := Submitted(rows[1..]);
      assert rows == [rows[0]] + rows[1..];
      if rows[0].submitted.Some? then [rows[0]] + rest else rest
  }

  /** The `authorlist` and `affillist` columns: `Authors` and `Affiliations` split on ';'. */
  function Annotate(r: Row): (e: Entry)
    ensures e.row == r && e.binaryTime.None?
    ensures |e.authorList| >= 1 && Join(e.authorList, ';') == r.authors && forall k :: 0 <= k < |e.authorList| ==> ';' !in e.authorList[k]
    ensures |e.affilList| >= 1 && Join(e.affilList, ';') == r.affiliations && forall k :: 0 <= k < |e.affilList| ==> ';' !in e.affilList[k]
  {
    Entry(r, Split(r.authors, ';'), Split(r.affiliations, ';'), None)
  }

  function Annotated(rows: seq<Row>): seq<Entry> {
    seq(|rows|, k requires 0 <= k < |rows| => Annotate(rows[k]))
  }

  /** The entries of class `c`, in table order: the talks, the posters or the entries of neither kind. */
  function Select(es: seq<Entry>, c: Class): (sel: seq<Entry>)
    ensures forall e :: multiset(sel)[e] == if ClassOf(e.row.kind) == c then multiset(es)[e] else 0
    decreases |es|
  {
    if es == [] then []
    else
      var rest := Select(es[1..], c);
      assert es == [es[0]] + es[1..];
      if ClassOf(es[0].row.kind) == c then [es[0]] + rest else rest
  }

  /** The rows that survive the `Timestamp` filter, with their author and affiliation lists. */
  function Kept(t: Table): seq<Entry> {
    Annotated(Submitted(t.rows))
  }

  function TalkEntries(t: Table): seq<Entry> { Select(Kept(t), Talk) }

  function PosterEntries(t: Table): seq<Entry> { Select(Kept(t), Poster) }

  function UnclassifiedEntries(t: Table): seq<Entry> { Select(Kept(t), Unclassified) }

  /** The `Timestamp` filter keeps table order: filtering two stretches of rows is filtering each. */
  lemma {:induction false} SubmittedAppend(a: seq<Row>, b: seq<Row>)
    ensures Submitted(a + b) == Submitted(a) + Submitted(b)
    decreases |a|
  {
    if a == [] {
      assert a + b == b;
    } else {
      assert (a + b)[1..] == a[1..] + b;
      SubmittedAppend(a[1..], b);
    }
  }

  /** A single row is kept exactly when its `Timestamp` is present. */
  lemma SubmittedOne(r: Row)
    ensures Submitted([r]) == if r.submitted.Some? then [r] else []
  {
    assert [r][1..] == [];
  }

  /** Adding the author and affiliation lists works row by row. */
  lemma AnnotatedAppend(a: seq<Row>, b: seq<Row>)
    ensures Annotated(a + b) == Annotated(a) + Annotated(b)
  {
    assert forall k :: 0 <= k < |a + b| ==> Annotated(a + b)[k] == (Annotated(a) + Annotated(b))[k];
  }

  /** A class selection keeps input order: selecting from two stretches of entries is selecting from each. */
  lemma {:induction false} SelectAppend(a: seq<Entry>, b: seq<Entry>, c: Class)
    ensures Select(a + b, c) == Select(a, c) + Select(b, c)
    decreases |a|
  {
    if a == [] {
      assert a + b == b;
    } else {
      assert (a + b)[1..] == a[1..] + b;
      SelectAppend(a[1..], b, c);
    }
  }

  /** A single entry is selected exactly when its `type` is of the class. */
  lemma SelectOne(e: Entry, c: Class)
    ensures Select([e], c) == if ClassOf(e.row.kind) == c then [e] else []
  {
    assert [e][1..] == [];
  }

  /**
   * The talks, posters and unclassified entries come in table order:
   * the class drawn from two stretches of rows is the class drawn from
   * the first stretch followed by the class drawn from the second.
   */
  lemma ClassInTableOrder(a: seq<Row>, b: seq<Row>, c: Class)
    ensures Select(Annotated(Submitted(a + b)), c) ==
      Select(Annotated(Submitted(a)), c) + Select(Annotated(Submitted(b)), c)
  {
    SubmittedAppend(a, b);
    AnnotatedAppend(Submitted(a), Submitted(b));
    SelectAppend(Annotated(Submitted(a)), Annotated(Submitted(b)), c);
  }

  /** Every entry is in exactly one class: the three classes add up to the entries. */
  lemma Partition(es: seq<Entry>)
    ensures multiset(Select(es, Talk)) + multiset(Select(es, Poster)) + multiset(Select(es, Unclassified)) == multiset(es)
    ensures |Select(es, Talk)| + |Select(es, Poster)| + |Select(es, Unclassified)| == |es|
  {
    var talks, posters, others := Select(es, Talk), Select(es, Poster), Select(es, Unclassified);
    var all := multiset(talks) + multiset(posters) + multiset(others);
    forall e ensures all[e] == multiset(es)[e] {
    }
    assert all == multiset(es);
    assert |multiset(es)| == |es|;
  }

  /** An entry is of class `c` exactly when its `type` is one of the values that class stands for. */
  lemma SelectMembers(es: seq<Entry>, c: Class, e: Entry)
    ensures e in Select(es, c) <==> e in es && ClassOf(e.row.kind) == c
  {
    assert e in Select(es, c) <==> multiset(Select(es, c))[e] > 0;
  }

  /** A row with no `Timestamp` is in no class, so in no output and in no diagnostic. */
  lemma DroppedRowsVanish(t: Table)
    ensures forall e :: e in Kept(t) ==> e.row.submitted.Some? && e.row in t.rows
  {
    var kept := Submitted(t.rows);
    forall e | e in Kept(t) ensures e.row.submitted.Some? && e.row in t.rows {
      var k :| 0 <= k < |Kept(t)| && Kept(t)[k] == e;
      assert e.row == kept[k];
      assert multiset(kept)[e.row] > 0;
    }
  }

  /** The start time of a talk: its `time` cell read on the first three characters of its `day` cell. */
  function StartTime(r: Row): (start: Result<DateTime, TimeError>)
    ensures start.Ok? ==> Prefix(r.day, 3) in Dates && OnDate(start.value, Dates[Prefix(r.day, 3)])
    ensures start.Ok? ==> 0 <= start.value.hour <= 23 && 0 <= start.value.minute <= 59
    ensures Prefix(r.day, 3) !in Dates ==> start == Err(UnknownDay(Prefix(r.day, 3)))
    ensures start != Err(MissingEndTime)
  {
    ParseDayTime(Prefix(r.day, 3), r.time, false)
  }

  /** A talk with time "" or "TBA" starts at 19:00 on the date of its day. */
  lemma UnscheduledStartsInEvening(r: Row)
    requires IsDefaultTime(r.time)
    ensures StartTime(r) ==
      if Prefix(r.day, 3) in Dates then Ok(At(Dates[Prefix(r.day, 3)], 19, 0)) else Err(UnknownDay(Prefix(r.day, 3)))
  {
    DefaultsToEvening(Prefix(r.day, 3), r.time, false);
  }

  /** A talk with time "start-finish" starts at the clock reading of `start`. */
  lemma StartReadsFirstHalf(r: Row, start: string, finish: string)
    requires r.time == start + "-" + finish
    requires '-' !in start && '-' !in finish
    ensures StartTime(r) == ClockOnDay(Prefix(r.day, 3), Split(start, ':'))
  {
    PicksHalf(Prefix(r.day, 3), start, finish, false);
  }

  /** The parse outcome of every talk's start time, in table order. */
  function StartTimes(es: seq<Entry>): (starts: seq<Result<DateTime, TimeError>>)
    ensures |starts| == |es|
  {
    seq(|es|, k requires 0 <= k < |es| => StartTime(es[k].row))
  }

  /** Outcome `k` is the first failed one, and fails with `e`. */
  predicate FirstFailure(starts: seq<Result<DateTime, TimeError>>, k: int, e: TimeError) {
    && 0 <= k < |starts|
    && starts[k] == Err(e)
    && forall j :: 0 <= j < k ==> starts[j].Ok?
  }

  lemma FirstFailureLater(starts: seq<Result<DateTime, TimeError>>, e: TimeError)
    requires starts != [] && starts[0].Ok?
    requires exists k :: FirstFailure(starts[1..], k, e)
    ensures exists k :: FirstFailure(starts, k, e)
  {
    var k :| FirstFailure(starts[1..], k, e);
    assert FirstFailure(starts, k + 1, e);
  }

  /**
   * The `binary_time` column: the talks with their parsed start times.
   * The list comprehension stops at the first talk whose time cannot be
   * parsed, and that failure aborts the whole pass.
   */
  function ScheduleTalks(es: seq<Entry>, starts: seq<Result<DateTime, TimeError>>): (r: Result<seq<Entry>, TimeError>)
    requires |starts| == |es|
    ensures r.Ok? <==> forall k :: 0 <= k < |starts| ==> starts[k].Ok?
    ensures r.Ok? ==> |r.value| == |es|
    ensures r.Ok? ==> forall k :: 0 <= k < |es| ==> r.value[k] == es[k].(binaryTime := Some(starts[k].value))
    ensures r.Err? ==> exists k :: FirstFailure(starts, k, r.error)
    decreases |es|
  {
    if es == [] then Ok([])
    else
      match starts[0]
      case Err(e) =>
        assert FirstFailure(starts, 0, e);
        Err(e)
      case Ok(start) =>
        match ScheduleTalks(es[1..], starts[1..])
        case Err(e) =>
          FirstFailureLater(starts, e);
          Err(e)
        case Ok(rest) =>
          assert forall k :: 1 <= k < |es| ==> starts[k] == starts[1..][k - 1];
          Ok([es[0].(binaryTime := Some(start))] + rest)
  }

  /** The talks before sorting: with the `binary_time` column when the table has `day` and `time` columns. */
  function ExpectedTalks(t: Table): (r: Result<seq<Entry>, TimeError>)
    ensures !(t.hasDay && t.hasTime) ==> r == Ok(TalkEntries(t))
    ensures t.hasDay && t.hasTime ==>
      (r.Ok? <==> forall k :: 0 <= k < |TalkEntries(t)| ==> StartTime(TalkEntries(t)[k].row).Ok?)
    ensures t.hasDay && t.hasTime && r.Ok? ==> |r.value| == |TalkEntries(t)|
    ensures t.hasDay && t.hasTime && r.Ok? ==> forall k :: 0 <= k < |r.value| ==>
      r.value[k] == TalkEntries(t)[k].(binaryTime := Some(StartTime(TalkEntries(t)[k].row).value))
    ensures r.Err? ==> t.hasDay && t.hasTime && exists k :: FirstFailure(StartTimes(TalkEntries(t)), k, r.error)
  {
    var talks := TalkEntries(t);
    if t.hasDay && t.hasTime then ScheduleTalks(talks, StartTimes(talks)) else Ok(talks)
  }

  /** The posters before sorting: numbered "TBA" when the table has no `poster number` column. */
  function ExpectedPosters(t: Table): (ps: seq<Entry>)
    ensures |ps| == |PosterEntries(t)|
    ensures forall k :: 0 <= k < |ps| ==>
      ps[k] == PosterEntries(t)[k].(row := PosterEntries(t)[k].row.(posterNumber := ps[k].row.posterNumber))
    ensures forall k :: 0 <= k < |ps| ==>
      ps[k].row.posterNumber == if t.numbers == NoNumberColumn then Str("TBA") else PosterEntries(t)[k].row.posterNumber
  {
    var ps := PosterEntries(t);
    if t.numbers == NoNumberColumn then
      seq(|ps|, k requires 0 <= k < |ps| => ps[k].(row := ps[k].row.(posterNumber := Str("TBA"))))
    else ps
  }

  /** The columns a table is sorted by. */
  datatype SortBy = ByTime | ByType | ByNumberAndAuthors

  /**
   * The sort key of an entry: the start time's five cells for the talks'
   * `binary_time` sort, the `type` cell for the fallback sort, and the
   * poster number followed by `Authors` for the poster sort.
   */
  function KeyOf(keys: SortBy, e: Entry): (k: Key)
    ensures keys == ByTime && e.binaryTime.Some? ==> k == TimeKey(e.binaryTime.value) && |k| == 5
    ensures keys == ByType ==> k == [Str(e.row.kind)]
    ensures keys == ByNumberAndAuthors ==> |k| == 2 && k[0] == e.row.posterNumber && k[1] == Str(e.row.authors)
  {
    match keys
    case ByTime => (match e.binaryTime case Some(t) => TimeKey(t) case None => [])
    case ByType => [Str(e.row.kind)]
    case ByNumberAndAuthors => [e.row.posterNumber, Str(e.row.authors)]
  }

  predicate Before(keys: SortBy, x: Entry, y: Entry) {
    KeyLe(KeyOf(keys, x), KeyOf(keys, y))
  }

  predicate Sorted(keys: SortBy, s: seq<Entry>) {
    forall i, j :: 0 <= i < j < |s| ==> Before(keys, s[i], s[j])
  }

  /**
   * `Table.sort(keys)`: sorts the rows in place by the key columns. The
   * source's sort algorithm is numpy's; only its result is modelled.
   */
  method SortTable(a: array<Entry>, keys: SortBy)
    modifies a
    ensures Sorted(keys, a[..])
    ensures multiset(a[..]) == multiset(old(a[..]))
  {
    var i := 0;
    while i < a.Length
      invariant 0 <= i <= a.Length
      invariant forall k, l :: 0 <= k < l < i ==> Before(keys, a[k], a[l])
      invariant multiset(a[..]) == multiset(old(a[..]))
    {
      var j := i;
      while j > 0 && !Before(keys, a[j - 1], a[j])
        invariant 0 <= j <= i
        invariant forall k, l :: 0 <= k < l <= i && k != j && l != j ==> Before(keys, a[k], a[l])
        invariant forall l :: j < l <= i ==> Before(keys, a[j], a[l])
        invariant multiset(a[..]) == multiset(old(a[..]))
      {
        KeyLeTotal(KeyOf(keys, a[j - 1]), KeyOf(keys, a[j]));
        Swap(a, j - 1, j);
        j := j - 1;
      }
      forall k | 0 <= k < j ensures Before(keys, a[k], a[j]) {
        if k < j - 1 {
          KeyLeTransitive(KeyOf(keys, a[k]), KeyOf(keys, a[j - 1]), KeyOf(keys, a[j]));
        }
      }
      i := i + 1;
    }
  }

  /** Exchanges two rows. */
  method Swap(a: array<Entry>, i: int, j: int)
    requires 0 <= i < j < a.Length
    modifies a
    ensures a[i] == old(a[j]) && a[j] == old(a[i])
    ensures forall k :: 0 <= k < a.Length && k != i && k != j ==> a[k] == old(a[k])
    ensures multiset(a[..]) == multiset(old(a[..]))
  {
    a[i], a[j] := a[j], a[i];
  }

  /** The sequence in the opposite order. */
  function Reversed(s: seq<Entry>): (r: seq<Entry>)
    ensures |r| == |s|
    ensures forall k :: 0 <= k < |s| ==> r[k] == s[|s| - 1 - k]
  {
    if s == [] then [] else Reversed(s[1..]) + [s[0]]
  }

  lemma {:induction false} ReversedPermutes(s: seq<Entry>)
    ensures multiset(Reversed(s)) == multiset(s)
  {
    if s != [] {
      ReversedPermutes(s[1..]);
      assert s == [s[0]] + s[1..];
    }
  }

  /** `Table.reverse()`: reverses the rows in place. */
  method ReverseTable(a: array<Entry>)
    modifies a
    ensures a[..] == Reversed(old(a[..]))
  {
    var lo, hi := 0, a.Length;
    while lo + 1 < hi
      invariant 0 <= lo <= hi <= a.Length && lo + hi == a.Length
      invariant forall k :: 0 <= k < lo ==> a[k] == old(a[a.Length - 1 - k]) && a[a.Length - 1 - k] == old(a[k])
      invariant forall k :: lo <= k < hi ==> a[k] == old(a[k])
    {
      a[lo], a[hi - 1] := a[hi - 1], a[lo];
      lo, hi := lo + 1, hi - 1;
    }
  }

  /** Talks ordered by `type` with the later string first. */
  predicate DescendingByType(s: seq<Entry>) {
    forall i, j :: 0 <= i < j < |s| ==> StrLe(s[j].row.kind, s[i].row.kind)
  }

  /** Sorting by `type` and reversing orders the talks by `type`, latest string first. */
  lemma ReversedSortIsDescending(s: seq<Entry>)
    requires Sorted(ByType, s)
    ensures DescendingByType(Reversed(s))
    ensures multiset(Reversed(s)) == multiset(s)
  {
    var r := Reversed(s);
    forall i, j | 0 <= i < j < |r| ensures StrLe(r[j].row.kind, r[i].row.kind) {
      var a, b := |s| - 1 - j, |s| - 1 - i;
      assert Before(ByType, s[a], s[b]);
      KeyLeHead(KeyOf(ByType, s[a]), KeyOf(ByType, s[b]));
    }
    ReversedPermutes(s);
  }

  /** Ordered latest `type` first, every "invited" talk comes before every "contributed" one. */
  lemma InvitedBeforeContributed(s: seq<Entry>, i: int, j: int)
    requires DescendingByType(s)
    requires 0 <= i < |s| && 0 <= j < |s|
    requires s[i].row.kind == "invited" && s[j].row.kind == "contributed"
    ensures i < j
  {
  }

  /** The `poster number` column of a table of entries. */
  function Numbers(ps: seq<Entry>): (vs: seq<Value>)
    ensures |vs| == |ps|
  {
    seq(|ps|, k requires 0 <= k < |ps| => ps[k].row.posterNumber)
  }

  predicate ValuesSorted(vs: seq<Value>) {
    forall i, j :: 0 <= i < j < |vs| ==> ValueLe(vs[i], vs[j])
  }

  /** Posters sorted by (number, authors) have their numbers in order. */
  lemma SortedNumbers(ps: seq<Entry>)
    requires Sorted(ByNumberAndAuthors, ps)
    ensures ValuesSorted(Numbers(ps))
  {
    forall i, j | 0 <= i < j < |ps| ensures ValueLe(Numbers(ps)[i], Numbers(ps)[j]) {
      assert Before(ByNumberAndAuthors, ps[i], ps[j]);
      KeyLeHead(KeyOf(ByNumberAndAuthors, ps[i]), KeyOf(ByNumberAndAuthors, ps[j]));
    }
  }

  /** One distinct value of a column and how many rows hold it. */
  datatype Tally = Tally(value: Value, count: nat)

  /**
   * numpy's unique values with their counts, on a sorted column: one tally
   * per run of equal values.
   */
  function Unique(vs: seq<Value>): (u: seq<Tally>)
    ensures |u| <= |vs|
    ensures forall k :: 0 <= k < |u| ==> u[k].count >= 1
    ensures TotalCount(u) == |vs|
    decreases |vs|
  {
    if vs == [] then []
    else
      var rest := Unique(vs[1..]);
      if rest != [] && rest[0].value == vs[0] then [Tally(vs[0], rest[0].count + 1)] + rest[1..]
      else [Tally(vs[0], 1)] + rest
  }

  /** The number of rows the tallies account for. */
  function TotalCount(u: seq<Tally>): nat
    decreases |u|
  {
    if u == [] then 0 else u[0].count + TotalCount(u[1..])
  }

  /** The tallies list every distinct value of `vs` once, in increasing order, with its multiplicity. */
  predicate Tallies(u: seq<Tally>, vs: seq<Value>) {
    && (forall k :: 0 <= k < |u| ==> u[k].value in vs && u[k].count == multiset(vs)[u[k].value])
    && (forall k, l :: 0 <= k < l < |u| ==> ValueLe(u[k].value, u[l].value) && u[k].value != u[l].value)
    && (forall v :: v in vs ==> exists k :: 0 <= k < |u| && u[k].value == v)
  }

  /** The first tally is the first value's. */
  lemma UniqueHead(vs: seq<Value>)
    requires vs != []
    ensures Unique(vs) != [] && Unique(vs)[0].value == vs[0]
  {
  }

  /** Every tally is of a value of the column. */
  lemma {:induction false} TalliedValuesPresent(vs: seq<Value>)
    ensures forall k :: 0 <= k < |Unique(vs)| ==> Unique(vs)[k].value in vs
    decreases |vs|
  {
    if vs != [] {
      var tail := vs[1..];
      TalliedValuesPresent(tail);
      var rest, u := Unique(tail), Unique(vs);
      assert vs == [vs[0]] + tail;
      if rest != [] && rest[0].value == vs[0] {
        assert u == [Tally(vs[0], rest[0].count + 1)] + rest[1..];
        forall k | 0 < k < |u| ensures u[k].value in vs {
          assert u[k] == rest[k];
        }
      } else {
        assert u == [Tally(vs[0], 1)] + rest;
        forall k | 0 < k < |u| ensures u[k].value in vs {
          assert u[k] == rest[k - 1];
        }
      }
    }
  }

  /** Every value of `vs` has a tally in `u`. */
  predicate Covers(u: seq<Tally>, vs: seq<Value>) {
    forall v :: v in vs ==> exists k :: 0 <= k < |u| && u[k].value == v
  }

  /** Every value of the column has a tally. */
  lemma {:induction false} ValuesTallied(vs: seq<Value>)
    ensures Covers(Unique(vs), vs)
    decreases |vs|
  {
    if vs != [] {
      var tail := vs[1..];
      ValuesTallied(tail);
      var rest, u := Unique(tail), Unique(vs);
      assert vs == [vs[0]] + tail;
      var joins := rest != [] && rest[0].value == vs[0];
      if joins {
        assert u == [Tally(vs[0], rest[0].count + 1)] + rest[1..];
      } else {
        assert u == [Tally(vs[0], 1)] + rest;
      }
      forall v | v in vs ensures exists k :: 0 <= k < |Unique(vs)| && Unique(vs)[k].value == v {
        if v == vs[0] {
          assert u[0].value == v;
        } else {
          assert v in tail;
          var k :| 0 <= k < |rest| && rest[k].value == v;
          if joins {
            assert k != 0;
            assert u[k] == rest[k];
          } else {
            assert u[k + 1] == rest[k];
          }
        }
      }
    }
  }

  /** In a sorted column, a value equal to the head further on means the next value equals it too. */
  lemma SortedRepeatsHead(vs: seq<Value>)
    requires ValuesSorted(vs)
    requires |vs| >= 2
    ensures vs[0] in vs[1..] ==> vs[1] == vs[0]
  {
    if vs[0] in vs[1..] {
      var j :| 1 <= j < |vs| && vs[j] == vs[0];
      assert ValueLe(vs[1], vs[j]);
      ValueLeAntisymmetric(vs[0], vs[1]);
    }
  }

  /** The head of a sorted column does not recur in the tail unless the tail starts with it. */
  lemma HeadNotInTail(vs: seq<Value>)
    requires ValuesSorted(vs)
    requires vs != []
    requires |vs| == 1 || vs[1] != vs[0]
    ensures vs[0] !in vs[1..]
  {
    if |vs| >= 2 {
      SortedRepeatsHead(vs);
    }
  }

  /** On a sorted column the tallies are strictly increasing. */
  lemma {:induction false} UniqueAscending(vs: seq<Value>)
    requires ValuesSorted(vs)
    ensures Ascending(Unique(vs))
    decreases |vs|
  {
    if vs != [] {
      var tail := vs[1..];
      UniqueAscending(tail);
      TalliedValuesPresent(tail);
      var rest, u := Unique(tail), Unique(vs);
      if tail != [] {
        UniqueHead(tail);
      }
      if rest != [] && rest[0].value == vs[0] {
        assert u == [Tally(vs[0], rest[0].count + 1)] + rest[1..];
        forall k, l | 0 <= k < l < |u| ensures ValueLe(u[k].value, u[l].value) && u[k].value != u[l].value {
          assert u[l] == rest[l];
          if k > 0 {
            assert u[k] == rest[k];
          }
        }
      } else {
        HeadNotInTail(vs);
        assert u == [Tally(vs[0], 1)] + rest;
        forall k, l | 0 <= k < l < |u| ensures ValueLe(u[k].value, u[l].value) && u[k].value != u[l].value {
          assert u[l] == rest[l - 1];
          if k > 0 {
            assert u[k] == rest[k - 1];
          } else {
            var j :| 0 <= j < |tail| && tail[j] == u[l].value;
            assert ValueLe(vs[0], vs[j + 1]);
          }
        }
      }
    }
  }

  /** Every tally counts its value's occurrences in `vs`. */
  predicate CountsMatch(u: seq<Tally>, vs: seq<Value>) {
    forall k :: 0 <= k < |u| ==> u[k].count == multiset(vs)[u[k].value]
  }

  /** A value put in front of the first run of a column joins that run's tally. */
  lemma CountsJoinRun(v: Value, tail: seq<Value>, rest: seq<Tally>)
    requires rest != [] && rest[0].value == v
    requires CountsMatch(rest, tail) && Ascending(rest)
    ensures CountsMatch([Tally(v, rest[0].count + 1)] + rest[1..], [v] + tail)
  {
    var u := [Tally(v, rest[0].count + 1)] + rest[1..];
    var m := multiset([v] + tail);
    assert m == multiset{v} + multiset(tail);
    forall k | 0 <= k < |u| ensures u[k].count == m[u[k].value] {
      if k > 0 {
        assert u[k] == rest[k];
        assert rest[0].value != rest[k].value;
      }
    }
  }

  /** A value not in a column, put in front of it, gets a tally of its own. */
  lemma CountsNewRun(v: Value, tail: seq<Value>, rest: seq<Tally>)
    requires v !in tail
    requires CountsMatch(rest, tail)
    requires forall k :: 0 <= k < |rest| ==> rest[k].value in tail
    ensures CountsMatch([Tally(v, 1)] + rest, [v] + tail)
  {
    var u := [Tally(v, 1)] + rest;
    var m := multiset([v] + tail);
    assert m == multiset{v} + multiset(tail);
    forall k | 0 <= k < |u| ensures u[k].count == m[u[k].value] {
      if k > 0 {
        assert u[k] == rest[k - 1];
      }
    }
  }

  /** On a sorted column every tally counts its value's occurrences. */
  lemma {:induction false} UniqueCounts(vs: seq<Value>)
    requires ValuesSorted(vs)
    ensures CountsMatch(Unique(vs), vs)
    decreases |vs|
  {
    if vs != [] {
      var tail := vs[1..];
      UniqueCounts(tail);
      UniqueAscending(tail);
      var rest := Unique(tail);
      if tail != [] {
        UniqueHead(tail);
      }
      assert vs == [vs[0]] + tail;
      if rest != [] && rest[0].value == vs[0] {
        CountsJoinRun(vs[0], tail, rest);
      } else {
        TalliedValuesPresent(tail);
        ValuesTallied(tail);
        HeadNotInTail(vs);
        CountsNewRun(vs[0], tail, rest);
      }
    }
  }

  lemma UniqueTallies(vs: seq<Value>)
    requires ValuesSorted(vs)
    ensures Tallies(Unique(vs), vs)
    ensures vs != [] ==> Unique(vs) != [] && Unique(vs)[0].value == vs[0]
  {
    TalliedValuesPresent(vs);
    ValuesTallied(vs);
    UniqueAscending(vs);
    UniqueCounts(vs);
    if vs != [] {
      UniqueHead(vs);
    }
  }

  /** What `data()` prints, as data. */
  datatype Diagnostic =
    | NotIntegerNumbers    // "Poster numbers are not integers - ..."
    | DuplicatesHeader     // "The following poster numbers are used more than once:"
    | DuplicateNumber(number: Value, posters: nat)
    | UnclassifiedHeader   // "The following entries do not have a valid "type" entry, ..."
    | UnclassifiedEntry(submitted: Option<string>, kind: string, title: string)

  /**
   * The duplicate-number report as the source writes it: for every value
   * used more than once it prints `unique_counts[1]`, the count of the
   * second distinct value, and that index raises `IndexError` (here `None`)
   * when there is only one distinct value.
   */
  function DuplicateLinesAsWritten(u: seq<Tally>): (r: Option<seq<Diagnostic>>)
    ensures r == None <==> |u| == 1 && u[0].count > 1
    ensures r == Some([]) <==> forall k :: 0 <= k < |u| ==> u[k].count <= 1
    ensures r.Some? && r.value != [] ==> |u| >= 2 && r.value[0] == DuplicatesHeader
    ensures r.Some? ==> forall k :: 1 <= k < |r.value| ==> r.value[k].DuplicateNumber? && r.value[k].posters == u[1].count
  {
    if forall k :: 0 <= k < |u| ==> u[k].count <= 1 then Some([])
    else if |u| < 2 then None
    else Some([DuplicatesHeader] + FlaggedAsWritten(u, u[1].count))
  }

  function FlaggedAsWritten(u: seq<Tally>, printed: nat): (lines: seq<Diagnostic>)
    ensures forall x :: x in lines ==> x.DuplicateNumber? && x.posters == printed
    decreases |u|
  {
    if u == [] then []
    else (if u[0].count > 1 then [DuplicateNumber(u[0].value, printed)] else []) + FlaggedAsWritten(u[1..], printed)
  }

  /** The run-length tallies of the column 1, 1, 2, 2, 2. */
  lemma TalliesOfExample(one: Value, two: Value, vs: seq<Value>)
    requires vs == [one, one, two, two, two]
    requires one != two
    ensures Unique(vs) == [Tally(one, 2), Tally(two, 3)]
  {
    var s1 := [two];
    assert s1[1..] == [];
    assert Unique(s1) == [Tally(two, 1)];
    var s2 := [two] + s1;
    assert s2[1..] == s1;
    assert Unique(s2) == [Tally(two, 2)];
    var s3 := [two] + s2;
    assert s3[1..] == s2;
    assert Unique(s3) == [Tally(two, 3)];
    var s4 := [one] + s3;
    assert s4[1..] == s3;
    assert Unique(s4) == [Tally(one, 1), Tally(two, 3)];
    assert vs[1..] == s4;
  }

  /** Numbers 1, 1, 2, 2, 2: the source reports number 1 as used by 3 posters; it is used by 2. */
  lemma AsWrittenMisreportsCount(one: Value, two: Value, vs: seq<Value>)
    requires one == Int(1) && two == Int(2)
    requires vs == [one, one, two, two, two]
    ensures multiset(vs)[one] == 2
    ensures DuplicateLinesAsWritten(Unique(vs)) ==
      Some([DuplicatesHeader, DuplicateNumber(one, 3), DuplicateNumber(two, 3)])
  {
    TalliesOfExample(one, two, vs);
    var u := [Tally(one, 2), Tally(two, 3)];
    assert u[0].count > 1 && |u| == 2 && u[1].count == 3;
    assert u[1..] == [Tally(two, 3)] && u[1..][1..] == [];
    assert FlaggedAsWritten(u[1..][1..], 3) == [];
    assert FlaggedAsWritten(u[1..], 3) == [DuplicateNumber(two, 3)];
    assert FlaggedAsWritten(u, 3) == [DuplicateNumber(one, 3), DuplicateNumber(two, 3)];
    assert !(forall k :: 0 <= k < |u| ==> u[k].count <= 1);
    assert DuplicateLinesAsWritten(u) == Some([DuplicatesHeader] + FlaggedAsWritten(u, u[1].count));
    assert [DuplicatesHeader] + FlaggedAsWritten(u, 3) == [DuplicatesHeader, DuplicateNumber(one, 3), DuplicateNumber(two, 3)];
    assert Unique(vs) == u;
    assert vs == [one, one] + [two, two, two];
    assert multiset(vs) == multiset{one, one} + multiset{two, two, two};
  }

  /**
   * When every poster has the same number and there are at least two of
   * them (as happens with no `poster number` column, where every poster
   * becomes "TBA"), the source's report raises `IndexError`.
   */
  lemma AsWrittenFailsOnSingleNumber(vs: seq<Value>)
    requires |vs| >= 2
    requires forall k :: 0 <= k < |vs| ==> vs[k] == vs[0]
    ensures DuplicateLinesAsWritten(Unique(vs)) == None
  {
    assert ValuesSorted(vs) by {
      ValueLeReflexive(vs[0]);
    }
    UniqueTallies(vs);
    var u := Unique(vs);
    assert forall v :: v in vs ==> v == vs[0];
    assert |u| == 1;
    assert vs == [vs[0], vs[1]] + vs[2..];
    assert multiset(vs) == multiset{vs[0], vs[1]} + multiset(vs[2..]);
    assert u[0].count > 1;
  }

  /** The corrected report names every number used by more than one poster once, with its own count. */
  ghost predicate DuplicatesReported(lines: seq<Diagnostic>, vs: seq<Value>) {
    && (lines == [] <==> forall v :: multiset(vs)[v] <= 1)
    && (lines != [] ==> lines[0] == DuplicatesHeader)
    && (forall k :: 1 <= k < |lines| ==>
          lines[k].DuplicateNumber? && lines[k].posters == multiset(vs)[lines[k].number] > 1)
    && (forall v :: multiset(vs)[v] > 1 ==> DuplicateNumber(v, multiset(vs)[v]) in lines)
    && (forall k, l :: 1 <= k < l < |lines| ==> ValueLe(lines[k].number, lines[l].number) && lines[k].number != lines[l].number)
  }

  /** One line per tally used more than once, each with that tally's own count. */
  function Flagged(u: seq<Tally>): (lines: seq<Diagnostic>)
    ensures |lines| <= |u|
    decreases |u|
  {
    if u == [] then []
    else (if u[0].count > 1 then [DuplicateNumber(u[0].value, u[0].count)] else []) + Flagged(u[1..])
  }

  /** The corrected duplicate-number report: the header, then the flagged tallies, or nothing. */
  function DuplicateLines(u: seq<Tally>): seq<Diagnostic> {
    var flagged := Flagged(u);
    if flagged == [] then [] else [DuplicatesHeader] + flagged
  }

  lemma {:induction false} FlaggedSnoc(u: seq<Tally>, t: Tally)
    ensures Flagged(u + [t]) == Flagged(u) + (if t.count > 1 then [DuplicateNumber(t.value, t.count)] else [])
    decreases |u|
  {
    if u == [] {
      assert ([] + [t])[1..] == [];
    } else {
      assert (u + [t])[1..] == u[1..] + [t];
      FlaggedSnoc(u[1..], t);
    }
  }

  /** Every flagged line is a tally counted more than once. */
  lemma {:induction false} FlaggedSound(u: seq<Tally>)
    ensures forall x :: x in Flagged(u) ==> x.DuplicateNumber? && x.posters > 1 && Tally(x.number, x.posters) in u
    decreases |u|
  {
    if u != [] {
      FlaggedSound(u[1..]);
      forall x | x in Flagged(u[1..]) ensures Tally(x.number, x.posters) in u {
        assert Tally(x.number, x.posters) in u[1..];
      }
    }
  }

  /** Every tally counted more than once is flagged. */
  lemma {:induction false} FlaggedComplete(u: seq<Tally>)
    ensures forall j :: 0 <= j < |u| && u[j].count > 1 ==> DuplicateNumber(u[j].value, u[j].count) in Flagged(u)
    decreases |u|
  {
    if u != [] {
      FlaggedComplete(u[1..]);
      forall j | 0 < j < |u| && u[j].count > 1 ensures DuplicateNumber(u[j].value, u[j].count) in Flagged(u) {
        assert u[j] == u[1..][j - 1];
      }
    }
  }

  predicate Ascending(u: seq<Tally>) {
    forall k, l :: 0 <= k < l < |u| ==> ValueLe(u[k].value, u[l].value) && u[k].value != u[l].value
  }

  predicate LinesAscending(lines: seq<Diagnostic>) {
    forall k, l :: 0 <= k < l < |lines| && lines[k].DuplicateNumber? && lines[l].DuplicateNumber? ==>
      ValueLe(lines[k].number, lines[l].number) && lines[k].number != lines[l].number
  }

  /** Flagging keeps the tallies' order. */
  lemma {:induction false} FlaggedAscending(u: seq<Tally>)
    requires Ascending(u)
    ensures LinesAscending(Flagged(u))
    decreases |u|
  {
    if u != [] {
      var tail := u[1..];
      assert Ascending(tail) by {
        forall k, l | 0 <= k < l < |tail| ensures ValueLe(tail[k].value, tail[l].value) && tail[k].value != tail[l].value {
          assert tail[k] == u[k + 1] && tail[l] == u[l + 1];
        }
      }
      FlaggedAscending(tail);
      FlaggedSound(tail);
      if u[0].count > 1 {
        var f := Flagged(u);
        assert f == [DuplicateNumber(u[0].value, u[0].count)] + Flagged(tail);
        forall l | 0 < l < |f| ensures ValueLe(f[0].number, f[l].number) && f[0].number != f[l].number {
          assert f[l] in Flagged(tail);
          var t := Tally(f[l].number, f[l].posters);
          var j :| 0 <= j < |tail| && tail[j] == t;
          assert u[j + 1] == t;
        }
        forall k, l | 0 < k < l < |f| ensures ValueLe(f[k].number, f[l].number) && f[k].number != f[l].number {
          assert f[k] == Flagged(tail)[k - 1] && f[l] == Flagged(tail)[l - 1];
        }
      }
    }
  }

  /**
   * The source's lines are the corrected lines, one for one and in the same
   * order, with every count replaced by the printed one.
   */
  lemma {:induction false} AsWrittenRecounts(u: seq<Tally>, printed: nat)
    ensures |FlaggedAsWritten(u, printed)| == |Flagged(u)|
    ensures forall k :: 0 <= k < |Flagged(u)| ==>
      Flagged(u)[k].DuplicateNumber? && FlaggedAsWritten(u, printed)[k] == DuplicateNumber(Flagged(u)[k].number, printed)
    decreases |u|
  {
    if u != [] {
      var tail := u[1..];
      AsWrittenRecounts(tail, printed);
      var f, g := Flagged(u), FlaggedAsWritten(u, printed);
      if u[0].count > 1 {
        assert f == [DuplicateNumber(u[0].value, u[0].count)] + Flagged(tail);
        assert g == [DuplicateNumber(u[0].value, printed)] + FlaggedAsWritten(tail, printed);
        forall k | 1 <= k < |f|
          ensures f[k].DuplicateNumber? && g[k] == DuplicateNumber(f[k].number, printed)
        {
          assert f[k] == Flagged(tail)[k - 1] && g[k] == FlaggedAsWritten(tail, printed)[k - 1];
        }
      } else {
        assert f == Flagged(tail) && g == FlaggedAsWritten(tail, printed);
      }
    }
  }

  /** Every as-written line is a number used more than once, with the printed count. */
  lemma AsWrittenLinesSound(u: seq<Tally>, printed: nat)
    ensures forall x :: x in FlaggedAsWritten(u, printed) ==>
      exists k :: 0 <= k < |u| && u[k].count > 1 && x == DuplicateNumber(u[k].value, printed)
  {
    var f, g := Flagged(u), FlaggedAsWritten(u, printed);
    AsWrittenRecounts(u, printed);
    FlaggedSound(u);
    forall x | x in g
      ensures exists k :: 0 <= k < |u| && u[k].count > 1 && x == DuplicateNumber(u[k].value, printed)
    {
      var i :| 0 <= i < |g| && g[i] == x;
      assert f[i] in f;
      var k :| 0 <= k < |u| && u[k] == Tally(f[i].number, f[i].posters);
      assert u[k].count > 1 && x == DuplicateNumber(u[k].value, printed);
    }
  }

  /** Every number used more than once has an as-written line, with the printed count. */
  lemma AsWrittenLinesComplete(u: seq<Tally>, printed: nat)
    ensures forall k :: 0 <= k < |u| && u[k].count > 1 ==> DuplicateNumber(u[k].value, printed) in FlaggedAsWritten(u, printed)
  {
    var f, g := Flagged(u), FlaggedAsWritten(u, printed);
    AsWrittenRecounts(u, printed);
    FlaggedComplete(u);
    forall k | 0 <= k < |u| && u[k].count > 1 ensures DuplicateNumber(u[k].value, printed) in g {
      var i :| 0 <= i < |f| && f[i] == DuplicateNumber(u[k].value, u[k].count);
      assert g[i] == DuplicateNumber(u[k].value, printed);
    }
  }

  /** On increasing tallies the as-written lines are in increasing order of number. */
  lemma AsWrittenLinesAscending(u: seq<Tally>, printed: nat)
    requires Ascending(u)
    ensures LinesAscending(FlaggedAsWritten(u, printed))
  {
    var f, g := Flagged(u), FlaggedAsWritten(u, printed);
    AsWrittenRecounts(u, printed);
    FlaggedAscending(u);
    forall k, l | 0 <= k < l < |g| && g[k].DuplicateNumber? && g[l].DuplicateNumber?
      ensures ValueLe(g[k].number, g[l].number) && g[k].number != g[l].number
    {
      assert g[k].number == f[k].number && g[l].number == f[l].number;
    }
  }

  /**
   * As written, the report after its header has a line for exactly the
   * numbers used more than once, each carrying the count of the second
   * distinct number, in the order of the tallies.
   */
  lemma AsWrittenNamesRepeatedNumbers(u: seq<Tally>)
    ensures var r := DuplicateLinesAsWritten(u);
      r.Some? && r.value != [] ==>
        forall x :: x in r.value[1..] <==>
          exists k :: 0 <= k < |u| && u[k].count > 1 && x == DuplicateNumber(u[k].value, u[1].count)
    ensures var r := DuplicateLinesAsWritten(u);
      r.Some? && Ascending(u) ==> LinesAscending(r.value)
  {
    var r := DuplicateLinesAsWritten(u);
    if r.Some? && r.value != [] {
      var p := u[1].count;
      var g := FlaggedAsWritten(u, p);
      assert r.value == [DuplicatesHeader] + g;
      assert r.value[1..] == g;
      AsWrittenLinesSound(u, p);
      AsWrittenLinesComplete(u, p);
      if Ascending(u) {
        AsWrittenLinesAscending(u, p);
        forall k, l | 0 <= k < l < |r.value| && r.value[k].DuplicateNumber? && r.value[l].DuplicateNumber?
          ensures ValueLe(r.value[k].number, r.value[l].number) && r.value[k].number != r.value[l].number
        {
          assert r.value[k] == g[k - 1] && r.value[l] == g[l - 1];
        }
      }
    }
  }

  /** Each line after the header is a number used more than once, with its own count. */
  lemma LinesCountOwnNumbers(u: seq<Tally>, vs: seq<Value>)
    requires Tallies(u, vs)
    ensures forall x :: x in Flagged(u) ==> x.DuplicateNumber? && x.posters == multiset(vs)[x.number] > 1
  {
    FlaggedSound(u);
    forall x | x in Flagged(u) ensures x.DuplicateNumber? && x.posters == multiset(vs)[x.number] > 1 {
      var j :| 0 <= j < |u| && u[j] == Tally(x.number, x.posters);
    }
  }

  /** Every number used more than once has its line. */
  lemma LinesCoverDuplicates(u: seq<Tally>, vs: seq<Value>)
    requires Tallies(u, vs)
    ensures forall v :: multiset(vs)[v] > 1 ==> DuplicateNumber(v, multiset(vs)[v]) in Flagged(u)
  {
    FlaggedComplete(u);
    forall v | multiset(vs)[v] > 1 ensures DuplicateNumber(v, multiset(vs)[v]) in Flagged(u) {
      assert v in vs;
      var j :| 0 <= j < |u| && u[j].value == v;
    }
  }

  /** The corrected report, stated on the tallies of a column. */
  lemma ReportFromTallies(u: seq<Tally>, vs: seq<Value>)
    requires Tallies(u, vs)
    ensures DuplicatesReported(DuplicateLines(u), vs)
  {
    var f := Flagged(u);
    LinesCountOwnNumbers(u, vs);
    LinesCoverDuplicates(u, vs);
    FlaggedAscending(u);
    var lines := DuplicateLines(u);
    forall k | 1 <= k < |lines| ensures lines[k].DuplicateNumber? && lines[k].posters == multiset(vs)[lines[k].number] > 1 {
      assert lines[k] == f[k - 1];
    }
    if f != [] {
      assert f[0] in f;
    }
    forall k, l | 1 <= k < l < |lines| ensures ValueLe(lines[k].number, lines[l].number) && lines[k].number != lines[l].number {
      assert lines[k] == f[k - 1] && lines[l] == f[l - 1];
      assert f[k - 1] in f && f[l - 1] in f;
    }
  }

  /** The corrected report meets its description on every sorted column. */
  lemma DuplicateLinesReported(vs: seq<Value>)
    requires ValuesSorted(vs)
    ensures DuplicatesReported(DuplicateLines(Unique(vs)), vs)
  {
    UniqueTallies(vs);
    ReportFromTallies(Unique(vs), vs);
  }

  /** Numbers 1, 1, 2, 2, 2: the corrected report gives each number its own count. */
  lemma CorrectedReportsOwnCount(one: Value, two: Value, vs: seq<Value>)
    requires one == Int(1) && two == Int(2)
    requires vs == [one, one, two, two, two]
    ensures DuplicateLines(Unique(vs)) == [DuplicatesHeader, DuplicateNumber(one, 2), DuplicateNumber(two, 3)]
  {
    TalliesOfExample(one, two, vs);
    var u := [Tally(one, 2), Tally(two, 3)];
    assert u[1..] == [Tally(two, 3)] && u[1..][1..] == [];
    assert Flagged(u[1..][1..]) == [];
    assert Flagged(u[1..]) == [DuplicateNumber(two, 3)];
    assert Flagged(u) == [DuplicateNumber(one, 2), DuplicateNumber(two, 3)];
    assert [DuplicatesHeader] + Flagged(u) == [DuplicatesHeader, DuplicateNumber(one, 2), DuplicateNumber(two, 3)];
  }

  /**
   * The duplicate-number check of `data()`, with each number's own count
   * printed. The column is sorted, so `np.unique` is run-length counting.
   */
  method ReportDuplicates(vs: seq<Value>) returns (lines: seq<Diagnostic>)
    requires ValuesSorted(vs)
    ensures lines == DuplicateLines(Unique(vs))
    ensures DuplicatesReported(lines, vs)
  {
    var u := Unique(vs);
    var found: seq<Diagnostic> := [];
    var i := 0;
    while i < |u|
      invariant 0 <= i <= |u|
      invariant found == Flagged(u[..i])
    {
      assert u[..i + 1] == u[..i] + [u[i]];
      FlaggedSnoc(u[..i], u[i]);
      if u[i].count > 1 {
        found := found + [DuplicateNumber(u[i].value, u[i].count)];
      }
      i := i + 1;
    }
    assert u[..i] == u;
    lines := if found == [] then [] else [DuplicatesHeader] + found;
    DuplicateLinesReported(vs);
  }

  /** The report of unclassified entries: a header, then the timestamp, `type` and title of each. */
  ghost predicate UnclassifiedReported(lines: seq<Diagnostic>, others: seq<Entry>) {
    && (others == [] ==> lines == [])
    && (others != [] ==> |lines| == |others| + 1 && lines[0] == UnclassifiedHeader)
    && forall k :: 0 <= k < |others| && others != [] ==>
         lines[k + 1] == UnclassifiedEntry(others[k].row.submitted, others[k].row.kind, others[k].row.title)
  }

  /** The loop over `notype` in `data()`. */
  method ReportUnclassified(others: seq<Entry>) returns (lines: seq<Diagnostic>)
    ensures UnclassifiedReported(lines, others)
  {
    lines := [];
    if |others| > 0 {
      lines := [UnclassifiedHeader];
      var i := 0;
      while i < |others|
        invariant 0 <= i <= |others|
        invariant |lines| == i + 1 && lines[0] == UnclassifiedHeader
        invariant forall k :: 0 <= k < i ==>
          lines[k + 1] == UnclassifiedEntry(others[k].row.submitted, others[k].row.kind, others[k].row.title)
      {
        var r := others[i].row;
        lines := lines + [UnclassifiedEntry(r.submitted, r.kind, r.title)];
        i := i + 1;
      }
    }
  }

  /** Every talk has a start time, and no talk starts later than one after it. */
  predicate Chronological(s: seq<Entry>) {
    && (forall k :: 0 <= k < |s| ==> s[k].binaryTime.Some?)
    && forall i, j :: 0 <= i < j < |s| ==> NotLater(s[i].binaryTime.value, s[j].binaryTime.value)
  }

  /** Scheduled talks sorted by `binary_time` are in chronological order. */
  lemma ScheduledTalksChronological(s: seq<Entry>)
    requires forall k :: 0 <= k < |s| ==> s[k].binaryTime.Some?
    requires Sorted(ByTime, s)
    ensures Chronological(s)
  {
    forall i, j | 0 <= i < j < |s| ensures NotLater(s[i].binaryTime.value, s[j].binaryTime.value) {
      assert Before(ByTime, s[i], s[j]);
      TimeKeyChronological(s[i].binaryTime.value, s[j].binaryTime.value);
    }
  }

  /** Posters that all carry the same number are sorted by their `Authors` cell. */
  lemma SameNumberByAuthors(s: seq<Entry>)
    requires forall k :: 0 <= k < |s| ==> s[k].row.posterNumber == s[0].row.posterNumber
    requires Sorted(ByNumberAndAuthors, s)
    ensures forall i, j :: 0 <= i < j < |s| ==> StrLe(s[i].row.authors, s[j].row.authors)
  {
    forall i, j | 0 <= i < j < |s| ensures StrLe(s[i].row.authors, s[j].row.authors) {
      var x, y := s[i].row, s[j].row;
      assert Before(ByNumberAndAuthors, s[i], s[j]);
      KeyLeCons(x.posterNumber, y.posterNumber, [Str(x.authors)], [Str(y.authors)]);
      KeyLeHead([Str(x.authors)], [Str(y.authors)]);
    }
  }

  /** Without a `poster number` column every poster is numbered "TBA". */
  lemma PostersWithoutNumbers(t: Table, ps: seq<Entry>)
    requires t.numbers == NoNumberColumn
    requires multiset(ps) == multiset(ExpectedPosters(t))
    ensures |ps| == |PosterEntries(t)|
    ensures forall k :: 0 <= k < |ps| ==> ps[k].row.posterNumber == Str("TBA")
  {
    assert |ps| == |multiset(ps)| == |ExpectedPosters(t)|;
    forall k | 0 <= k < |ps| ensures ps[k].row.posterNumber == Str("TBA") {
      assert multiset(ps)[ps[k]] > 0;
      assert ps[k] in ExpectedPosters(t);
    }
  }

  /**
   * With no `poster number` column and at least two posters, the source's
   * duplicate-number report raises `IndexError`: a single distinct number,
   * "TBA", is used more than once.
   */
  lemma AsWrittenFailsWithoutNumbers(t: Table, ps: seq<Entry>)
    requires t.numbers == NoNumberColumn
    requires |PosterEntries(t)| >= 2
    requires multiset(ps) == multiset(ExpectedPosters(t))
    ensures DuplicateLinesAsWritten(Unique(Numbers(ps))) == None
  {
    PostersWithoutNumbers(t, ps);
    AsWrittenFailsOnSingleNumber(Numbers(ps));
  }

  /** The warning printed when the `poster number` column is not stored as integers. */
  function NumberWarning(t: Table): (w: seq<Diagnostic>)
    ensures w == [] <==> t.numbers == IntegerNumbers
    ensures t.numbers != IntegerNumbers ==> w == [NotIntegerNumbers]
  {
    if t.numbers == IntegerNumbers then [] else [NotIntegerNumbers]
  }

  /**
   * The diagnostics in the order `data()` prints them: the number-type
   * warning, the duplicate-number report for the sorted posters, then the
   * report of unclassified entries.
   */
  ghost predicate Diagnosed(diagnostics: seq<Diagnostic>, warning: seq<Diagnostic>, posters: seq<Entry>, others: seq<Entry>) {
    var head := warning + DuplicateLines(Unique(Numbers(posters)));
    && |head| <= |diagnostics|
    && diagnostics[..|head|] == head
    && UnclassifiedReported(diagnostics[|head|..], others)
  }

  /** What `data()` returns, together with what it prints. */
  datatype Output = Output(talks: seq<Entry>, posters: seq<Entry>, diagnostics: seq<Diagnostic>)

  /** A table as an array, for the in-place table operations. */
  method ToArray(s: seq<Entry>) returns (a: array<Entry>)
    ensures fresh(a)
    ensures a[..] == s
  {
    a := new Entry[|s|](k requires 0 <= k < |s| => s[k]);
  }

  /**
   * The talk sort of `data()`: by start time when the talks are scheduled,
   * otherwise by `type` followed by a reversal.
   */
  method ArrangeTalks(talks: seq<Entry>, scheduled: bool) returns (arranged: seq<Entry>)
    requires scheduled ==> forall k :: 0 <= k < |talks| ==> talks[k].binaryTime.Some?
    ensures multiset(arranged) == multiset(talks)
    ensures scheduled ==> Sorted(ByTime, arranged)
    ensures scheduled ==> Chronological(arranged)
    ensures !scheduled ==> DescendingByType(arranged)
  {
    var a := ToArray(talks);
    if scheduled {
      SortTable(a, ByTime);
      arranged := a[..];
      forall k | 0 <= k < |arranged| ensures arranged[k].binaryTime.Some? {
        assert multiset(arranged)[arranged[k]] > 0;
        assert arranged[k] in talks;
      }
      ScheduledTalksChronological(arranged);
    } else {
      SortTable(a, ByType);
      ghost var sorted := a[..];
      ReverseTable(a);
      ReversedSortIsDescending(sorted);
      arranged := a[..];
    }
  }

  /** The poster sort of `data()`, by number and then authors. */
  method ArrangePosters(posters: seq<Entry>) returns (arranged: seq<Entry>)
    ensures multiset(arranged) == multiset(posters)
    ensures Sorted(ByNumberAndAuthors, arranged)
  {
    var a := ToArray(posters);
    SortTable(a, ByNumberAndAuthors);
    arranged := a[..];
  }

  /**
   * The part of `data()` after the rows are classified: sorts the talks
   * and the posters, and collects the diagnostics.
   */
  method Arrange(talks: seq<Entry>, scheduled: bool, posters: seq<Entry>, others: seq<Entry>, warning: seq<Diagnostic>)
    returns (out: Output)
    requires scheduled ==> forall k :: 0 <= k < |talks| ==> talks[k].binaryTime.Some?
    ensures multiset(out.talks) == multiset(talks)
    ensures scheduled ==> Sorted(ByTime, out.talks)
    ensures scheduled ==> Chronological(out.talks)
    ensures !scheduled ==> DescendingByType(out.talks)
    ensures multiset(out.posters) == multiset(posters)
    ensures Sorted(ByNumberAndAuthors, out.posters)
    ensures Diagnosed(out.diagnostics, warning, out.posters, others)
    ensures DuplicatesReported(DuplicateLines(Unique(Numbers(out.posters))), Numbers(out.posters))
  {
    var arrangedTalks := ArrangeTalks(talks, scheduled);
    var arrangedPosters := ArrangePosters(posters);
    var numbers := Numbers(arrangedPosters);
    SortedNumbers(arrangedPosters);
    var duplicates := ReportDuplicates(numbers);
    var unclassified := ReportUnclassified(others);
    var head := warning + duplicates;
    out := Output(arrangedTalks, arrangedPosters, head + unclassified);
    assert out.diagnostics[..|head|] == head;
    assert out.diagnostics[|head|..] == unclassified;
  }

  /** Scheduled talks all carry their start time. */
  lemma ExpectedTalksTimed(t: Table)
    requires ExpectedTalks(t).Ok? && t.hasDay && t.hasTime
    ensures forall k :: 0 <= k < |ExpectedTalks(t).value| ==> ExpectedTalks(t).value[k].binaryTime.Some?
  {
  }

  /**
   * `data()` after the spreadsheet is read: the talks and posters,
   * sorted, with the diagnostics it prints. A talk time that cannot be
   * parsed aborts it with that error.
   */
  method Data(t: Table) returns (res: Result<Output, TimeError>)
    ensures res.Ok? <==> ExpectedTalks(t).Ok?
    ensures res.Err? ==> res.error == ExpectedTalks(t).error
    ensures res.Ok? ==> multiset(res.value.talks) == multiset(ExpectedTalks(t).value)
    ensures res.Ok? && t.hasDay && t.hasTime ==> Sorted(ByTime, res.value.talks)
    ensures res.Ok? && t.hasDay && t.hasTime ==> Chronological(res.value.talks)
    ensures res.Ok? && !(t.hasDay && t.hasTime) ==> DescendingByType(res.value.talks)
    ensures res.Ok? ==> multiset(res.value.posters) == multiset(ExpectedPosters(t))
    ensures res.Ok? ==> Sorted(ByNumberAndAuthors, res.value.posters)
    ensures res.Ok? ==> Diagnosed(res.value.diagnostics, NumberWarning(t), res.value.posters, UnclassifiedEntries(t))
    ensures res.Ok? ==> DuplicatesReported(DuplicateLines(Unique(Numbers(res.value.posters))), Numbers(res.value.posters))
  {
    var expected := ExpectedTalks(t);
    if expected.Err? {
      return Err(expected.error);
    }
    var scheduled := t.hasDay && t.hasTime;
    if scheduled {
      ExpectedTalksTimed(t);
    }
    var out := Arrange(expected.value, scheduled, ExpectedPosters(t), UnclassifiedEntries(t), NumberWarning(t));
    res := Ok(out);
  }
}
