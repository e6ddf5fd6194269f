/**
 * The rolling layout: the boxes run from the start of the week that holds
 * the day one 365-day year before today up to the end of the week that holds
 * today, and the entries kept are those dated in that window. "Today" is the
 * day of a clock reading passed in.
 */
module RollingLayout {
  import opened Common
  import opened Calendar
  import opened Decimal
  import opened DateUtil
  import opened Entries
  import opened Boxes

  /** ONE_YEAR_MILI: 365 days; leap years are not accounted for. */
  const OneYearMs: int := DayMs * 365

  /** More boxes than this abort generateBoxes. */
  const MaxIterations: int := 390

  /**
   * The window's first day, counted in days since the epoch: the week start
   * day on or before the day 365 days before `today`, so 365 to 371 days
   * before it.
   */
  function FirstDay(today: int, weekStart: int): (s: int)
    requires IsWeekDay(weekStart)
    ensures DayWeekDay(s) == weekStart && today - 371 <= s <= today - 365
    ensures forall z | s < z <= today - 365 :: DayWeekDay(z) != weekStart
  {
    PrevWeekDay(today - 365, weekStart);
    today - 365 - (DayWeekDay(today - 365) - weekStart) % 7
  }

  /** The window's last day: the week end day on or after `today`, 0 to 6 days after it. */
  function LastDay(today: int, weekEnd: int): (e: int)
    requires IsWeekDay(weekEnd)
    ensures DayWeekDay(e) == weekEnd && today <= e <= today + 6
    ensures forall z | today <= z < e :: DayWeekDay(z) != weekEnd
  {
    NextWeekDay(today, weekEnd);
    today + (weekEnd - DayWeekDay(today)) % 7
  }

  /** The instant the window starts: midnight of its first day. */
  function RollingStart(clock: int, weekStart: int): (r: int)
    requires IsWeekDay(weekStart)
    ensures r % DayMs == 0 && Day(r) == FirstDay(Day(clock), weekStart)
  {
    DayOfMidnight(FirstDay(Day(clock), weekStart));
    FirstDay(Day(clock), weekStart) * DayMs
  }

  /** The instant the window ends: midnight of its last day. */
  function RollingEnd(clock: int, weekEnd: int): (r: int)
    requires IsWeekDay(weekEnd)
    ensures r % DayMs == 0 && Day(r) == LastDay(Day(clock), weekEnd)
  {
    DayOfMidnight(LastDay(Day(clock), weekEnd));
    LastDay(Day(clock), weekEnd) * DayMs
  }

  /**
   * The window starts where getRollingStartDate puts it: at the start of the
   * week holding getNow() minus 365 days.
   */
  lemma RollingStartFromNow(clock: int, weekStart: int)
    requires IsWeekDay(weekStart)
    ensures RollingStart(clock, weekStart) == StartOfWeek(GetNow(clock) - OneYearMs, weekStart)
  {
    var t := GetNow(clock) - OneYearMs;
    DayOfShift(GetNow(clock), -365);
    assert Day(t) == Day(clock) - 365;
  }

  /** The window ends where getRollingEndDate puts it: at the end of the week holding getNow(). */
  lemma RollingEndFromNow(clock: int, weekEnd: int)
    requires IsWeekDay(weekEnd)
    ensures RollingEnd(clock, weekEnd) == EndOfWeek(GetNow(clock), weekEnd)
  {
    assert Day(GetNow(clock)) == Day(clock);
  }

  /** getRollingStartDate, walking back through getStartOfWeekDate. */
  method GetRollingStartDate(clock: int, weekStart: int) returns (d: int)
    requires IsWeekDay(weekStart)
    ensures d == RollingStart(clock, weekStart)
  {
    var now := GetNow(clock);
    var minusAYear := now - OneYearMs;
    d := GetStartOfWeekDate(minusAYear, weekStart);
    RollingStartFromNow(clock, weekStart);
  }

  /** getRollingEndDate, walking forward through getEndOfWeekDate. */
  method GetRollingEndDate(clock: int, weekEnd: int) returns (d: int)
    requires IsWeekDay(weekEnd)
    ensures d == RollingEnd(clock, weekEnd)
  {
    var now := GetNow(clock);
    d := GetEndOfWeekDate(now, weekEnd);
    RollingEndFromNow(clock, weekEnd);
  }

  /** The number of days from the window's first day through its last. */
  function WindowDays(today: int, weekStart: int, weekEnd: int): (n: int)
    requires IsWeekDay(weekStart) && IsWeekDay(weekEnd)
  {
    LastDay(today, weekEnd) - FirstDay(today, weekStart) + 1
  }

  /**
   * The window spans 366 to 378 days, never more than the 390 the guard
   * allows; when the week end is the day before the week start, the window
   * is made of whole weeks.
   */
  lemma WindowSpan(today: int, weekStart: int, weekEnd: int)
    requires IsWeekDay(weekStart) && IsWeekDay(weekEnd)
    ensures 366 <= WindowDays(today, weekStart, weekEnd) <= 378 < MaxIterations
    ensures weekEnd == (weekStart + 6) % 7 ==> WindowDays(today, weekStart, weekEnd) % 7 == 0
  {
    if weekEnd == (weekStart + 6) % 7 {
      WholeWeeks(FirstDay(today, weekStart), LastDay(today, weekEnd));
    }
  }

  /** From a day to one whose week day comes just before it in the week, the span is whole weeks. */
  lemma WholeWeeks(a: int, b: int)
    requires DayWeekDay(b) == (DayWeekDay(a) + 6) % 7
    ensures (b - a + 1) % 7 == 0
  {
    var qa, ra := (a + 4) / 7, (a + 4) % 7;
    var qb, rb := (b + 4) / 7, (b + 4) % 7;
    if ra == 0 {
      assert rb == 6;
      assert b - a + 1 == 7 * (qb - qa + 1);
    } else {
      assert rb == ra - 1;
      assert b - a + 1 == 7 * (qb - qa);
    }
  }

  /** The boxes of the window: one empty box per day from its first day through its last. */
  function RollingBoxes(clock: int, weekStart: int, weekEnd: int): (r: seq<Box>)
    requires IsWeekDay(weekStart) && IsWeekDay(weekEnd)
  {
    WindowSpan(Day(clock), weekStart, weekEnd);
    DayBoxes(FirstDay(Day(clock), weekStart), WindowDays(Day(clock), weekStart, weekEnd), DayString)
  }

  /**
   * What the box loop of generateBoxes gives for a window from midnight of
   * day s through midnight of day e, labelling day z with text(z): one box
   * per day, unless that is more than 390 boxes, when it throws.
   */
  function WindowResult(s: int, e: int, text: int -> string): (r: Result<seq<Box>>)
    requires s <= e
  {
    if e - s + 1 > MaxIterations then Fail(TooManyIterations) else Ok(DayBoxes(s, e - s + 1, text))
  }

  /**
   * The loop of generateBoxes: push the box `make` builds for each day from
   * `startDate` through `endDate`, counting the pushes and throwing once
   * there have been more than 390. generateBoxes passes BoxImpl.fromDate,
   * which labels an instant with the text of its day.
   */
  method BoxesBetween(startDate: int, endDate: int, make: int -> Box, ghost s: int, ghost e: int, ghost text: int -> string)
    returns (r: Result<seq<Box>>)
    requires startDate == s * DayMs && endDate == e * DayMs && s <= e
    requires forall t :: make(t) == Box(text(Day(t)), None)
    ensures r == WindowResult(s, e, text)
  {
    WindowLength(startDate, endDate, s, e);
    var boxes: seq<Box> := [];
    var day := startDate;
    var end := IncrementDate(endDate, 1);
    var check := 0;
    while day < end
      invariant day == startDate + 86400000 * check && end == endDate + 86400000
      invariant check == |boxes| && check <= MaxIterations && s + check <= e + 1
      invariant boxes == DayBoxes(s, check, text)
      decreases end - day
    {
      DayAfterStart(startDate, s, check);
      DayBoxesSnoc(s, check, s + check, text);
      boxes := boxes + [make(day)];
      day := IncrementDate(day, 1);
      check := check + 1;
      if check > MaxIterations {
        return Fail(TooManyIterations);
      }
    }
    r := Ok(boxes);
  }

  /** Between the midnights of days s and e lie e - s whole days. */
  lemma WindowLength(startDate: int, endDate: int, s: int, e: int)
    requires startDate == s * DayMs && endDate == e * DayMs
    ensures endDate - startDate == 86400000 * (e - s)
  {
    assert e * DayMs - s * DayMs == (e - s) * DayMs;
  }

  /** `check` days after midnight of day s falls on day s + check. */
  lemma DayAfterStart(startDate: int, s: int, check: int)
    requires startDate == s * DayMs
    ensures Day(startDate + 86400000 * check) == s + check
  {
    DayOfMidnight(s + check);
    assert startDate + 86400000 * check == (s + check) * DayMs;
  }

  /** generateBoxes: the boxes of the window; the guard never trips. */
  method GenerateBoxes(clock: int, weekStart: int, weekEnd: int) returns (r: Result<seq<Box>>)
    requires IsWeekDay(weekStart) && IsWeekDay(weekEnd)
    ensures r == Ok(RollingBoxes(clock, weekStart, weekEnd))
  {
    var startDate := GetRollingStartDate(clock, weekStart);
    var endDate := GetRollingEndDate(clock, weekEnd);
    WindowFitsGuard(Day(clock), weekStart, weekEnd);
    r := BoxesBetween(startDate, endDate, FromDate, FirstDay(Day(clock), weekStart), LastDay(Day(clock), weekEnd), DayString);
  }

  /** The window's loop never trips the guard: it yields the window's boxes. */
  lemma WindowFitsGuard(today: int, weekStart: int, weekEnd: int)
    requires IsWeekDay(weekStart) && IsWeekDay(weekEnd)
    ensures var s, e := FirstDay(today, weekStart), LastDay(today, weekEnd);
      s <= e && WindowResult(s, e, DayString) == Ok(DayBoxes(s, e - s + 1, DayString))
  {
    WindowSpan(today, weekStart, weekEnd);
  }

  /**
   * The boxes run day by day through the window, from its first day s (the
   * start of the week of a year ago) through its last day e (the end of this
   * week): there are from 366 to 378 of them, one per day (Boxes.DayBoxesLabels
   * gives each box its day's label).
   */
  lemma RollingBoxesShape(clock: int, weekStart: int, weekEnd: int)
    requires IsWeekDay(weekStart) && IsWeekDay(weekEnd)
    ensures var r := RollingBoxes(clock, weekStart, weekEnd);
      var s, e := FirstDay(Day(clock), weekStart), LastDay(Day(clock), weekEnd);
      |r| == e - s + 1 && 366 <= |r| <= 378
  {
    WindowSpan(Day(clock), weekStart, weekEnd);
  }

  /** No date appears twice among the rolling boxes. */
  lemma RollingBoxesDistinct(clock: int, weekStart: int, weekEnd: int)
    requires IsWeekDay(weekStart) && IsWeekDay(weekEnd)
    ensures var r := RollingBoxes(clock, weekStart, weekEnd);
      forall i, j | 0 <= i < j < |r| :: r[i].date != r[j].date
  {
    DayStringsDistinct();
    DayBoxesDistinct(FirstDay(Day(clock), weekStart), WindowDays(Day(clock), weekStart, weekEnd), DayString);
  }

  /**
   * The filter test of filterEntries: the entry's date parses (as midnight
   * UTC) to an instant between the window's start and end, both included.
   * An unparseable date gives an invalid Date, which compares false.
   */
  predicate InWindow(e: RawEntry, clock: int, weekStart: int, weekEnd: int)
    requires IsWeekDay(weekStart) && IsWeekDay(weekEnd)
  {
    ParseDate(e.date).Some?
    && RollingStart(clock, weekStart) <= ParseDate(e.date).value <= RollingEnd(clock, weekEnd)
  }

  /** Between two midnights, the order of the instants is the order of their days. */
  lemma MidnightOrder(a: int, b: int)
    requires a % DayMs == 0 && b % DayMs == 0
    ensures a <= b <==> Day(a) <= Day(b)
  {
    MidnightOfDay(a);
    MidnightOfDay(b);
  }

  /**
   * filterEntries: the entries whose date names a day of the window, from
   * its first day through its last, in their original order.
   */
  function FilterEntries(entries: seq<RawEntry>, clock: int, weekStart: int, weekEnd: int): (r: seq<RawEntry>)
    requires IsWeekDay(weekStart) && IsWeekDay(weekEnd)
    ensures forall e :: e in r <==>
      e in entries && ParseDate(e.date).Some?
      && FirstDay(Day(clock), weekStart) <= Day(ParseDate(e.date).value) <= LastDay(Day(clock), weekEnd)
  {
    forall e | e in entries && ParseDate(e.date).Some?
      ensures InWindow(e, clock, weekStart, weekEnd) <==>
        FirstDay(Day(clock), weekStart) <= Day(ParseDate(e.date).value) <= LastDay(Day(clock), weekEnd)
    {
      MidnightOrder(RollingStart(clock, weekStart), ParseDate(e.date).value);
      MidnightOrder(ParseDate(e.date).value, RollingEnd(clock, weekEnd));
    }
    Filter(entries, e => InWindow(e, clock, weekStart, weekEnd))
  }

  /** The twelve month names, starting with the month after `month0` (0 = January). */
  function MonthsAfter(month0: int): (r: seq<string>)
    requires 0 <= month0 <= 11
    ensures |r| == 12
  {
    Rotate(Months, (month0 + 1) % 12)
  }

  /**
   * The labels are the twelve month names, each once: label i names month
   * month0 + 1 + i, round the end of the year, so the last names month0.
   */
  lemma MonthsAfterOrder(month0: int)
    requires 0 <= month0 <= 11
    ensures multiset(MonthsAfter(month0)) == multiset(Months)
    ensures forall i | 0 <= i < 12 :: MonthsAfter(month0)[i] == Months[(month0 + 1 + i) % 12]
    ensures MonthsAfter(month0)[11] == Months[month0]
  {
    RotatePermutes(Months, (month0 + 1) % 12);
    RotateAfter(Months, month0, (month0 + 1) % 12);
  }

  /** Twelve items rotated to start after item month0: item i is item month0 + 1 + i, round the end. */
  lemma RotateAfter<T>(xs: seq<T>, month0: int, k: int)
    requires |xs| == 12 && 0 <= month0 <= 11 && k == (month0 + 1) % 12
    ensures forall i | 0 <= i < 12 :: Rotate(xs, k)[i] == xs[(month0 + 1 + i) % 12]
    ensures Rotate(xs, k)[11] == xs[month0]
  {
    forall i | 0 <= i < 12
      ensures Rotate(xs, k)[i] == xs[(month0 + 1 + i) % 12]
    {
      RotateAt(xs, k, i);
      MonthIndex(month0, i);
    }
    MonthIndex(month0, 11);
  }

  /** Counting i months on from the month after month0, round the end of the year. */
  lemma MonthIndex(month0: int, i: int)
    requires 0 <= month0 <= 11 && 0 <= i < 12
    ensures var k := (month0 + 1) % 12;
      && (i < 12 - k ==> (month0 + 1 + i) % 12 == k + i)
      && (12 - k <= i ==> (month0 + 1 + i) % 12 == i - (12 - k))
      && (i == 11 ==> (month0 + 1 + i) % 12 == month0)
  {
  }

  /**
   * getMonthLabels: the month names starting with the month after today's,
   * so the last label is today's month.
   */
  method GetMonthLabels(clock: int) returns (orderedMonths: seq<string>)
    ensures orderedMonths == MonthsAfter(Month0(clock))
  {
    var monthOffset := Month0(GetNow(clock)) + 1;
    assert Month0(GetNow(clock)) == Month0(clock);
    orderedMonths := MonthLabelsFrom(monthOffset);
  }

  /** The loop of getMonthLabels: twelve month names from month `monthOffset` (0 = January) on, round the end of the year. */
  method MonthLabelsFrom(monthOffset: int) returns (orderedMonths: seq<string>)
    requires 1 <= monthOffset <= 12
    ensures orderedMonths == MonthsAfter(monthOffset - 1)
  {
    orderedMonths := [];
    for i := 0 to 12
      invariant orderedMonths == PickFrom(Months, monthOffset, i)
    {
      orderedMonths := orderedMonths + [Months[(monthOffset + i) % 12]];
    }
    PickFromRotates(Months, monthOffset, monthOffset - 1);
  }

  /** The first n of the twelve items taken from item `offset` on, round the end. */
  function PickFrom<T>(xs: seq<T>, offset: int, n: nat): (r: seq<T>)
    requires |xs| == 12
    ensures |r| == n
  {
    if n == 0 then [] else PickFrom(xs, offset, n - 1) + [xs[(offset + n - 1) % 12]]
  }

  /** Item j of the picks is item offset + j, round the end. */
  lemma {:induction false} PickFromAt<T>(xs: seq<T>, offset: int, n: nat, j: int)
    requires |xs| == 12 && 0 <= j < n
    ensures PickFrom(xs, offset, n)[j] == xs[(offset + j) % 12]
  {
    if j < n - 1 {
      PickFromAt(xs, offset, n - 1, j);
    }
  }

  /** All twelve picks from item month0 + 1 on are the items rotated to start after item month0. */
  lemma PickFromRotates<T>(xs: seq<T>, offset: int, month0: int)
    requires |xs| == 12 && 0 <= month0 <= 11 && offset == month0 + 1
    ensures PickFrom(xs, offset, 12) == Rotate(xs, (month0 + 1) % 12)
  {
    var ys := PickFrom(xs, offset, 12);
    RotateAfter(xs, month0, (month0 + 1) % 12);
    forall j | 0 <= j < 12
      ensures ys[j] == Rotate(xs, (month0 + 1) % 12)[j]
    {
      PickFromAt(xs, offset, 12, j);
    }
  }

  /** The day numbers of the dates of the rolling layout test. */
  lemma ExampleDays()
    ensures DaysFromCivil(2019, 6, 20) == 18067
    ensures DaysFromCivil(2018, 6, 17) == 17699
    ensures DaysFromCivil(2019, 6, 22) == 18069
  {
  }

  /** On Thursday 2019-06-20 (day 18067) the Sunday-to-Saturday window runs from day 17699 to day 18069. */
  lemma ExampleWindow()
    ensures FirstDay(18067, 0) == 17699 && LastDay(18067, 6) == 18069
  {
    assert DayWeekDay(17699) == 0 && DayWeekDay(17700) == 1 && DayWeekDay(17701) == 2 && DayWeekDay(17702) == 3;
    assert DayWeekDay(18067) == 4 && DayWeekDay(18068) == 5 && DayWeekDay(18069) == 6;
  }

  /** The date texts of the first and last days of the rolling layout test. */
  lemma ExampleDayStrings()
    ensures DayString(17699) == "2018-06-17" && DayString(18069) == "2019-06-22"
  {
    ExampleDays();
    DayStringOfCivil(2018, 6, 17);
    assert DayString(17699) == IntToString(2018) + "-" + TwoDigitText(6) + "-" + TwoDigitText(17);
    DayStringOfCivil(2019, 6, 22);
    assert DayString(18069) == IntToString(2019) + "-" + TwoDigitText(6) + "-" + TwoDigitText(22);
    FirstDayText();
    LastDayText();
  }

  /** The text of 2018-06-17. */
  lemma FirstDayText()
    ensures IntToString(2018) + "-" + TwoDigitText(6) + "-" + TwoDigitText(17) == "2018-06-17"
  {
    FourDigits(2018);
    TwoDigitShape(6);
    TwoDigitShape(17);
  }

  /** The text of 2019-06-22. */
  lemma LastDayText()
    ensures IntToString(2019) + "-" + TwoDigitText(6) + "-" + TwoDigitText(22) == "2019-06-22"
  {
    FourDigits(2019);
    TwoDigitShape(6);
    TwoDigitShape(22);
  }

  /** The first and last boxes of a window are labelled with its first and last days. */
  lemma WindowEnds(clock: int, weekStart: int, weekEnd: int, first: int, last: int)
    requires IsWeekDay(weekStart) && IsWeekDay(weekEnd)
    requires FirstDay(Day(clock), weekStart) == first && LastDay(Day(clock), weekEnd) == last
    ensures var r := RollingBoxes(clock, weekStart, weekEnd);
      |r| == last - first + 1 && r[0].date == DayString(first) && r[|r| - 1].date == DayString(last)
  {
    var n := WindowDays(Day(clock), weekStart, weekEnd);
    assert n == last - first + 1;
    assert RollingBoxes(clock, weekStart, weekEnd) == DayBoxes(first, n, DayString);
    DayBoxesEnds(first, last, DayString);
  }

  /**
   * The rolling layout test: at 12:06 UTC on Thursday 2019-06-20, with weeks
   * running from Sunday to Saturday, the window holds 371 boxes, from Sunday
   * 2018-06-17 to Saturday 2019-06-22.
   */
  lemma RollingBoxesExample()
    ensures var r := RollingBoxes(DaysFromCivil(2019, 6, 20) * DayMs + 43560000, 0, 6);
      |r| == 371 && r[0].date == "2018-06-17" && r[370].date == "2019-06-22"
  {
    ExampleDays();
    DayOfShift(43560000, 18067);
    ExampleWindow();
    WindowEnds(18067 * DayMs + 43560000, 0, 6, 17699, 18069);
    ExampleDayStrings();
  }

  /** In June the labels run from July to June. */
  lemma MonthsAfterJune()
    ensures MonthsAfter(5) == ["Jul", "Aug", "Sep", "Oct", "Nov", "Dec", "Jan", "Feb", "Mar", "Apr", "May", "Jun"]
  {
  }
}
