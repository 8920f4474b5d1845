/**
 * `parse_day_time`: a day code and a time range such as "14:30 - 15:15"
 * become the start (or end) of the range as a timestamp, a tuple
 * (year, month, day, hour, minute) ordered as the tuple is.
 */
module Schedule {
  import opened Wrappers
  import opened Text
  import opened Order

  datatype Date = Date(year: int, month: int, day: int)

  datatype DateTime = DateTime(year: int, month: int, day: int, hour: int, minute: int)

  /**
   * The day-code table of the 2018 event. Unassigned talks ("" and "TBA")
   * go to the first day so that they are not overlooked.
   */
  const Dates: map<string, Date> := map[
    "" := Date(2018, 7, 30),
    "TBA" := Date(2018, 7, 30),
    "Sun" := Date(2018, 7, 29),
    "Mon" := Date(2018, 7, 30),
    "Tue" := Date(2018, 7, 31),
    "Wed" := Date(2018, 8, 1),
    "Thu" := Date(2018, 8, 2),
    "Fri" := Date(2018, 8, 3),
    "Sat" := Date(2018, 8, 4)
  ]

  /**
   * The table's day codes: the seven weekday abbreviations of the event
   * week, Sunday 29 July to Saturday 4 August 2018, and the two codes for
   * an unassigned day, which share the Monday. No code is longer than the
   * three characters the caller keeps of a `day` cell.
   */
  lemma DayTable()
    ensures Dates.Keys == {"", "TBA", "Sun", "Mon", "Tue", "Wed", "Thu", "Fri", "Sat"}
    ensures Dates[""] == Dates["TBA"] == Dates["Mon"] == Date(2018, 7, 30)
    ensures Dates["Sun"] == Date(2018, 7, 29) && Dates["Sat"] == Date(2018, 8, 4)
    ensures forall code :: code in Dates ==> |code| <= 3
  {
  }

  /** The ways `parse_day_time` raises. */
  datatype TimeError =
    | MissingEndTime            // the end time asked of a range with no '-' (IndexError)
    | UnknownDay(code: string)  // a day code not in `Dates` (KeyError)
    | NotAnInteger(text: string) // a clock part that is not an integer (ValueError)
    | MissingMinutes            // a clock with no ':' (IndexError)
    | HourOutOfRange(hour: int) // an hour outside 0..23 (ValueError)
    | MinuteOutOfRange(minute: int)

  function At(d: Date, hour: int, minute: int): DateTime {
    DateTime(d.year, d.month, d.day, hour, minute)
  }

  predicate OnDate(t: DateTime, d: Date) {
    t.year == d.year && t.month == d.month && t.day == d.day
  }

  predicate IsDefaultTime(timestr: string) {
    timestr == "" || timestr == "TBA"
  }

  /** The hour and minute texts: "19" and "00" for an unscheduled talk, otherwise the chosen half split on ':'. */
  function ClockFields(timestr: string, end: bool): (r: Result<seq<string>, TimeError>)
    ensures r.Ok? ==> |r.value| >= 1
    ensures r.Err? ==> r.error == MissingEndTime
    ensures r.Err? <==> end && !IsDefaultTime(timestr) && '-' !in timestr
  {
    if IsDefaultTime(timestr) then Ok(["19", "00"])
    else
      var halves := Split(timestr, '-');
      var i := if end then 1 else 0;
      if i < |halves| then Ok(Split(halves[i], ':')) else Err(MissingEndTime)
  }

  /** Both texts read as integers, an hour of the day and a minute of the hour. */
  predicate InRange(hour: Option<int>, minute: Option<int>) {
    hour.Some? && minute.Some? && 0 <= hour.value <= 23 && 0 <= minute.value <= 59
  }

  /** The timestamp on the date of `day` at the clock given by the texts `time`, in the order Python checks them. */
  function ClockOnDay(day: string, time: seq<string>): (r: Result<DateTime, TimeError>)
    requires |time| >= 1
    ensures r.Ok? <==> day in Dates && |time| >= 2 && InRange(ParseInt(Strip(time[0])), ParseInt(Strip(time[1])))
    ensures r.Ok? ==> OnDate(r.value, Dates[day])
    ensures r.Ok? ==> Some(r.value.hour) == ParseInt(Strip(time[0])) && Some(r.value.minute) == ParseInt(Strip(time[1]))
    ensures day !in Dates <==> r == Err(UnknownDay(day))
  {
    if day !in Dates then Err(UnknownDay(day))
    else
      var d := Dates[day];
      var hourText := Strip(time[0]);
      match ParseInt(hourText)
      case None => Err(NotAnInteger(hourText))
      case Some(h) =>
        if |time| < 2 then Err(MissingMinutes)
        else
          var minuteText := Strip(time[1]);
          match ParseInt(minuteText)
          case None => Err(NotAnInteger(minuteText))
          case Some(m) =>
            if !(0 <= h <= 23) then Err(HourOutOfRange(h))
            else if !(0 <= m <= 59) then Err(MinuteOutOfRange(m))
            else Ok(At(d, h, m))
  }

  /**
   * `parse_day_time(day, timestr, end)`. A talk without a time ("" or
   * "TBA") is put at 19:00 so that it sorts after the scheduled talks of
   * its day, whichever end of the range is asked for.
   */
  function ParseDayTime(day: string, timestr: string, end: bool): (r: Result<DateTime, TimeError>)
    ensures r.Ok? ==> day in Dates && OnDate(r.value, Dates[day])
    ensures r.Ok? ==> 0 <= r.value.hour <= 23 && 0 <= r.value.minute <= 59
  {
    match ClockFields(timestr, end)
    case Err(e) => Err(e)
    case Ok(time) => ClockOnDay(day, time)
  }

  /** A talk with time "" or "TBA" is at 19:00 on the date of its day, for the start and the end alike. */
  lemma DefaultsToEvening(day: string, timestr: string, end: bool)
    requires IsDefaultTime(timestr)
    ensures ParseDayTime(day, timestr, end) ==
      if day in Dates then Ok(At(Dates[day], 19, 0)) else Err(UnknownDay(day))
  {
    EveningClock(day);
  }

  /** Two clock texts that read as integers in range give that time on the day's date. */
  lemma ClockReads(day: string, a: string, b: string, h: int, m: int)
    requires day in Dates
    requires ParseInt(Strip(a)) == Some(h) && ParseInt(Strip(b)) == Some(m)
    requires 0 <= h <= 23 && 0 <= m <= 59
    ensures ClockOnDay(day, [a, b]) == Ok(At(Dates[day], h, m))
  {
  }

  /** A digit string with no padding reads as its value. */
  lemma ReadsDigits(ds: string)
    requires ds != [] && AllDigits(ds)
    ensures ParseInt(Strip(ds)) == Some(DecimalValue(ds))
  {
    assert ds == [] + ds + [];
    ReadsPadded([], ds, []);
  }

  /** Two decimal digits read as the number they spell. */
  lemma ReadsTwoDigits(c: char, d: char)
    requires IsDigit(c) && IsDigit(d)
    ensures ParseInt(Strip([c, d])) == Some(10 * ((c as int) - ('0' as int)) + ((d as int) - ('0' as int)))
  {
    ReadsDigits([c, d]);
    assert [c, d][..1] == [c] && [c][..0] == [];
    assert DecimalValue([c]) == (c as int) - ('0' as int);
    assert DecimalValue([c, d]) == 10 * DecimalValue([c]) + ((d as int) - ('0' as int));
  }

  /** The clock texts "19", "00" read as 19:00. */
  lemma EveningClock(day: string)
    ensures ClockOnDay(day, ["19", "00"]) ==
      if day in Dates then Ok(At(Dates[day], 19, 0)) else Err(UnknownDay(day))
  {
    if day in Dates {
      ReadsTwoDigits('1', '9');
      ReadsTwoDigits('0', '0');
      ClockReads(day, ['1', '9'], ['0', '0'], 19, 0);
    }
  }

  /**
   * Outside the default case the start time is read from the text before
   * the '-' and the end time from the text after it.
   */
  lemma PicksHalf(day: string, start: string, finish: string, end: bool)
    requires '-' !in start && '-' !in finish
    ensures ParseDayTime(day, start + "-" + finish, end) ==
      ClockOnDay(day, Split(if end then finish else start, ':'))
  {
    var timestr := start + "-" + finish;
    assert timestr[|start|] == '-';
    assert !IsDefaultTime(timestr);
    assert Join([start, finish], '-') == timestr;
    SplitJoin([start, finish], '-');
  }

  /**
   * Outside the default case, for any number of '-' in the time string,
   * the start time is read from the first '-'-separated piece and the end
   * time from the second; a piece after the second is never read.
   */
  lemma PicksPiece(day: string, timestr: string, end: bool)
    requires !IsDefaultTime(timestr)
    requires (if end then 1 else 0) < |Split(timestr, '-')|
    ensures ParseDayTime(day, timestr, end) ==
      ClockOnDay(day, Split(Split(timestr, '-')[if end then 1 else 0], ':'))
  {
    var pieces := Split(timestr, '-');
    assert ClockFields(timestr, end) == Ok(Split(pieces[if end then 1 else 0], ':'));
  }

  /**
   * A time string with no '-' has no end time, and a start half with no
   * ':' has no minutes.
   */
  lemma MalformedRanges(day: string, start: string, finish: string)
    requires '-' !in start && '-' !in finish && ':' !in start
    requires !IsDefaultTime(start)
    ensures ParseDayTime(day, start, true) == Err(MissingEndTime)
    ensures day in Dates && ParseInt(Strip(start)).Some? ==>
      ParseDayTime(day, start + "-" + finish, false) == Err(MissingMinutes)
  {
    SplitJoin([start], '-');
    SplitJoin([start], ':');
    PicksHalf(day, start, finish, false);
  }

  /**
   * One half of a time range written the way the program expects it:
   * "h:m" with any whitespace around either number.
   */
  datatype ClockText = ClockText(w1: string, hour: string, w2: string, w3: string, minute: string, w4: string)

  function Render(c: ClockText): string {
    c.w1 + c.hour + c.w2 + ":" + c.w3 + c.minute + c.w4
  }

  predicate WellFormed(c: ClockText) {
    && AllSpace(c.w1) && AllSpace(c.w2) && AllSpace(c.w3) && AllSpace(c.w4)
    && c.hour != [] && AllDigits(c.hour) && c.minute != [] && AllDigits(c.minute)
  }

  /** A digit string with whitespace around it reads as its value. */
  lemma ReadsPadded(w1: string, ds: string, w2: string)
    requires AllSpace(w1) && AllSpace(w2) && ds != [] && AllDigits(ds)
    ensures ParseInt(Strip(w1 + ds + w2)) == Some(DecimalValue(ds))
  {
    assert IsDigit(ds[0]) && IsDigit(ds[|ds| - 1]);
    StripPadded(w1, ds, w2);
    ParseIntDigits(ds);
  }

  /** A well-formed clock text splits at its ':' into the hour part and the minute part, and contains no '-'. */
  lemma ClockTextSplits(c: ClockText)
    requires WellFormed(c)
    ensures Split(Render(c), ':') == [c.w1 + c.hour + c.w2, c.w3 + c.minute + c.w4]
    ensures '-' !in Render(c)
  {
    var a, b := c.w1 + c.hour + c.w2, c.w3 + c.minute + c.w4;
    PaddedDigitsFree(c.w1, c.hour, c.w2, ':');
    PaddedDigitsFree(c.w3, c.minute, c.w4, ':');
    PaddedDigitsFree(c.w1, c.hour, c.w2, '-');
    PaddedDigitsFree(c.w3, c.minute, c.w4, '-');
    assert [a, b][1..] == [b];
    assert Render(c) == a + [':'] + b;
    assert Join([a, b], ':') == Render(c);
    SplitJoin([a, b], ':');
  }

  /** A well-formed clock text reads as its hour and minute values, padding or leading zeros notwithstanding. */
  lemma ReadsClockText(day: string, c: ClockText)
    requires WellFormed(c)
    requires day in Dates && DecimalValue(c.hour) <= 23 && DecimalValue(c.minute) <= 59
    ensures ClockOnDay(day, Split(Render(c), ':')) == Ok(At(Dates[day], DecimalValue(c.hour), DecimalValue(c.minute)))
  {
    ClockTextSplits(c);
    ReadsPadded(c.w1, c.hour, c.w2);
    ReadsPadded(c.w3, c.minute, c.w4);
    ClockReads(day, c.w1 + c.hour + c.w2, c.w3 + c.minute + c.w4, DecimalValue(c.hour), DecimalValue(c.minute));
  }

  /**
   * A range "h1:m1 - h2:m2" on a known day is h1:m1 on that day's date
   * for the start and h2:m2 for the end.
   */
  lemma ParsesRange(day: string, start: ClockText, finish: ClockText, end: bool)
    requires WellFormed(start) && WellFormed(finish) && day in Dates
    requires DecimalValue(start.hour) <= 23 && DecimalValue(start.minute) <= 59
    requires DecimalValue(finish.hour) <= 23 && DecimalValue(finish.minute) <= 59
    ensures var c := if end then finish else start;
      ParseDayTime(day, Render(start) + "-" + Render(finish), end) ==
        Ok(At(Dates[day], DecimalValue(c.hour), DecimalValue(c.minute)))
  {
    ClockTextSplits(start);
    ClockTextSplits(finish);
    PicksHalf(day, Render(start), Render(finish), end);
    ReadsClockText(day, if end then finish else start);
  }

  /** A day code outside the table is a lookup failure, whatever the range. */
  lemma UnknownDayFails(day: string, start: string, finish: string, end: bool)
    requires day !in Dates && '-' !in start && '-' !in finish
    ensures ParseDayTime(day, start + "-" + finish, end) == Err(UnknownDay(day))
  {
    PicksHalf(day, start, finish, end);
  }

  /** Tuple order on timestamps, which for valid timestamps is chronological order. */
  predicate NotLater(a: DateTime, b: DateTime) {
    || a.year < b.year
    || (a.year == b.year && a.month < b.month)
    || (a.year == b.year && a.month == b.month && a.day < b.day)
    || (a.year == b.year && a.month == b.month && a.day == b.day && a.hour < b.hour)
    || (a.year == b.year && a.month == b.month && a.day == b.day && a.hour == b.hour && a.minute <= b.minute)
  }

  /** The sort key of a timestamp: its five fields as integer cells. */
  function TimeKey(t: DateTime): Key {
    [Int(t.year), Int(t.month), Int(t.day), Int(t.hour), Int(t.minute)]
  }

  /** Comparing keys that start with one cell each: the first cells decide unless they are equal. */
  lemma KeyLeCons(x: Value, y: Value, a: Key, b: Key)
    ensures KeyLe([x] + a, [y] + b) <==> if x == y then KeyLe(a, b) else ValueLe(x, y)
  {
    assert ([x] + a)[1..] == a && ([y] + b)[1..] == b;
  }

  /** Sorting by the timestamp column orders the timestamps chronologically. */
  lemma TimeKeyChronological(a: DateTime, b: DateTime)
    ensures KeyLe(TimeKey(a), TimeKey(b)) <==> NotLater(a, b)
  {
    KeyLeCons(Int(a.minute), Int(b.minute), [], []);
    KeyLeCons(Int(a.hour), Int(b.hour), [Int(a.minute)], [Int(b.minute)]);
    KeyLeCons(Int(a.day), Int(b.day), [Int(a.hour), Int(a.minute)], [Int(b.hour), Int(b.minute)]);
    KeyLeCons(Int(a.month), Int(b.month), TimeKey(a)[2..], TimeKey(b)[2..]);
    KeyLeCons(Int(a.year), Int(b.year), TimeKey(a)[1..], TimeKey(b)[1..]);
    assert TimeKey(a) == [Int(a.year)] + TimeKey(a)[1..] && TimeKey(b) == [Int(b.year)] + TimeKey(b)[1..];
    assert TimeKey(a)[1..] == [Int(a.month)] + TimeKey(a)[2..] && TimeKey(b)[1..] == [Int(b.month)] + TimeKey(b)[2..];
    assert TimeKey(a)[2..] == [Int(a.day)] + [Int(a.hour), Int(a.minute)];
    assert TimeKey(b)[2..] == [Int(b.day)] + [Int(b.hour), Int(b.minute)];
    assert [Int(a.hour), Int(a.minute)] == [Int(a.hour)] + [Int(a.minute)];
    assert [Int(b.hour), Int(b.minute)] == [Int(b.hour)] + [Int(b.minute)];
    assert [Int(a.minute)] == [Int(a.minute)] + [] && [Int(b.minute)] == [Int(b.minute)] + [];
  }
}
