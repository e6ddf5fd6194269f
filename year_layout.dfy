/**
 * The calendar-year layout: the boxes run from the start of the week that
 * holds January 1st up to and including January 1st of the following year,
 * and the entries kept are those dated in the layout's year.
 */
module YearLayout {
  import opened Common
  import opened Calendar
  import opened Decimal
  import opened DateUtil
  import opened Entries
  import opened Boxes

  /**
   * getHowManyDaysIntoYear: the day of the year of t, counting January 1st
   * as 1, computed as the distance from Date.UTC(year, 0, 0), the last day of
   * the previous year. Date.UTC reads a year 0..99 as 1900 + year on both
   * sides, so the count is taken in the calendar of UtcYear(year).
   */
  function DaysIntoYear(t: int): (n: int)
    ensures n == DaysBeforeMonth(UtcYear(Year(t)), Month0(t) + 1) + DateOfMonth(t)
  {
    var y, m0, d := Year(t), Month0(t), DateOfMonth(t);
    MakeDayInYear(UtcYear(y), m0, d);
    MidnightDistance(MakeDay(UtcYear(y), m0, d), MakeDay(UtcYear(y), 0, 0));
    (DateUtc(y, m0, d) - DateUtc(y, 0, 0)) / DayMs
  }

  /** January 1st is day 1 and February 3rd is day 34 of any year. */
  lemma DaysIntoYearExamples(y: int)
    ensures DaysIntoYear(DaysFromCivil(y, 1, 1) * DayMs) == 1
    ensures DaysIntoYear(DaysFromCivil(y, 2, 3) * DayMs) == 34
  {
    DayOfMidnight(DaysFromCivil(y, 1, 1));
    DayOfMidnight(DaysFromCivil(y, 2, 3));
    CivilRoundTrip(y, 1, 1);
    CivilRoundTrip(y, 2, 3);
  }

  /** December 31st as Date.UTC builds it is the last day: 365 or 366. */
  lemma DaysIntoYearLastDay(year: int)
    ensures DaysIntoYear(DateUtc(year, 11, 31)) == DaysInYear(UtcYear(year))
  {
    var y := UtcYear(year);
    var t := DateUtc(year, 11, 31);
    MakeDayCivil(y, 11, 31);
    assert CivilFromDays(Day(t)) == Civil(y, 12, 31);
    assert Year(t) == y && Month0(t) == 11 && DateOfMonth(t) == 31;
  }

  /** getMonthLabels: the twelve month names, January first. */
  function MonthLabels(): (r: seq<string>)
    ensures |r| == 12 && r[0] == "Jan" && r[11] == "Dec"
  {
    Months
  }

  /**
   * The filter test as written: the entry's date with "T00:00" appended is
   * read as local midnight (`tz` is the local offset east of UTC, in ms),
   * and the UTC year of that instant is compared with the layout's year.
   */
  predicate InYearAsWritten(e: RawEntry, year: int, tz: int) {
    ParseDate(e.date).Some? && LocalMidnightYear(ParseDate(e.date).value, tz) == year
  }

  /**
   * getUTCFullYear of local midnight: p is the UTC midnight of a date, and
   * midnight of that date in a zone tz ms east of UTC is the instant p - tz.
   */
  function LocalMidnightYear(p: int, tz: int): int {
    Year(p - tz)
  }

  /** The filter test as written, as a function value. */
  function InYearAsWrittenTest(year: int, tz: int): RawEntry -> bool {
    e => InYearAsWritten(e, year, tz)
  }

  /** filterEntries as written. */
  function FilterEntriesAsWritten(entries: seq<RawEntry>, year: int, tz: int): (r: seq<RawEntry>)
    ensures forall e :: e in r <==> e in entries && InYearAsWritten(e, year, tz)
  {
    Filter(entries, InYearAsWrittenTest(year, tz))
  }

  /** An instant up to a day before midnight of day z falls on day z - 1. */
  lemma BeforeMidnight(z: int, tz: int)
    requires 0 < tz <= DayMs
    ensures Day(z * DayMs - tz) == z - 1
  {
    DayOfShift(DayMs - tz, z - 1);
    assert z * DayMs - tz == (DayMs - tz) + DayMs * (z - 1);
  }

  /** The day before January 1st of a year falls in the year before. */
  lemma NewYearEve(year: int)
    ensures CivilFromDays(DaysFromCivil(year, 1, 1) - 1).year == year - 1
  {
    DaysBeforeNextYear(year - 1);
    assert DaysFromCivil(year - 1, 12, 31) == DaysFromCivil(year, 1, 1) - 1;
    CivilRoundTrip(year - 1, 12, 31);
  }

  /**
   * East of UTC, local midnight of January 1st is still December 31st in UTC,
   * so an entry dated January 1st of the year is dropped.
   */
  lemma FilterDropsNewYearEastOfUtc(e: RawEntry, year: int, tz: int)
    requires ParseDate(e.date) == Some(DaysFromCivil(year, 1, 1) * DayMs)
    requires 0 < tz <= DayMs
    ensures e !in FilterEntriesAsWritten([e], year, tz)
  {
    var z := DaysFromCivil(year, 1, 1);
    BeforeMidnight(z, tz);
    NewYearEve(year);
  }

  /** The entry dated 2019-01-01 is dropped from the 2019 layout one hour east of UTC. */
  lemma FilterDropsNewYearExample()
    ensures var e := RawEntry("2019-01-01", None, None, None);
      e !in FilterEntriesAsWritten([e], 2019, 3600000)
  {
    var e := RawEntry("2019-01-01", None, None, None);
    ParseDateOfText(2019, 1, 1);
    FourDigits(2019);
    TwoDigitShape(1);
    assert IntToString(2019) + "-" + TwoDigitText(1) + "-" + TwoDigitText(1) == "2019-01-01";
    FilterDropsNewYearEastOfUtc(e, 2019, 3600000);
  }

  /** The filter test, corrected: the year written in the entry's date is the layout's year. */
  predicate InYear(e: RawEntry, year: int) {
    ParseDate(e.date).Some? && Year(ParseDate(e.date).value) == year
  }

  /**
   * At UTC or west of it, local midnight of a date lies on that same UTC day,
   * so the test as written and the corrected test agree on every entry.
   */
  lemma InYearAgreesAtOrWestOfUtc(e: RawEntry, year: int, tz: int)
    requires -DayMs < tz <= 0
    ensures InYearAsWritten(e, year, tz) == InYear(e, year)
  {
    var d := ParseDate(e.date);
    if d.Some? {
      SameDayAtOrWestOfUtc(d.value, tz);
    }
  }

  /** Local midnight at UTC or west of it falls on the UTC day of the same date. */
  lemma SameDayAtOrWestOfUtc(p: int, tz: int)
    requires p % DayMs == 0
    requires -DayMs < tz <= 0
    ensures LocalMidnightYear(p, tz) == Year(p)
  {
    SameDayOfMidnight(p, tz);
  }

  /** Up to a day after a UTC midnight p, the day is still the day of p. */
  lemma SameDayOfMidnight(p: int, tz: int)
    requires p % DayMs == 0
    requires -DayMs < tz <= 0
    ensures Day(p - tz) == Day(p)
  {
    MidnightOfDay(p);
    var z := Day(p);
    DayOfShift(-tz, z);
    assert p - tz == -tz + DayMs * z;
    assert Day(-tz) == 0;
  }

  /** At UTC or west of it, the year filter as written keeps exactly what the corrected filter keeps, in the same order. */
  lemma FilterAgreesAtOrWestOfUtc(entries: seq<RawEntry>, year: int, tz: int)
    requires -DayMs < tz <= 0
    ensures FilterEntriesAsWritten(entries, year, tz) == FilterEntries(entries, year)
  {
    forall i | 0 <= i < |entries|
      ensures InYearAsWrittenTest(year, tz)(entries[i]) == InYearTest(year)(entries[i])
    {
      InYearAgreesAtOrWestOfUtc(entries[i], year, tz);
    }
    FilterCongruent(entries, InYearAsWrittenTest(year, tz), InYearTest(year));
    FilterEntriesIsFilter(entries, year);
  }

  /**
   * East of UTC, local midnight of January 1st of the next year is still
   * December 31st of the year in UTC, so the filter as written keeps that
   * entry, where the corrected filter drops it.
   */
  lemma FilterKeepsNextNewYearEastOfUtc(e: RawEntry, year: int, tz: int)
    requires ParseDate(e.date).Some?
    requires CivilFromDays(Day(ParseDate(e.date).value)) == Civil(year + 1, 1, 1)
    requires 0 < tz <= DayMs
    ensures e in FilterEntriesAsWritten([e], year, tz)
    ensures e !in FilterEntries([e], year)
  {
    NextNewYearEastOfUtc(ParseDate(e.date).value, year, tz);
  }

  /** East of UTC, local midnight of next January 1st is in the year; its UTC midnight is not. */
  lemma NextNewYearEastOfUtc(p: int, year: int, tz: int)
    requires p % DayMs == 0
    requires CivilFromDays(Day(p)) == Civil(year + 1, 1, 1)
    requires 0 < tz <= DayMs
    ensures LocalMidnightYear(p, tz) == year
    ensures Year(p) == year + 1
  {
    DayBeforeNewYear(Day(p), year + 1);
    YearBeforeMidnightOf(p, tz);
  }

  /** An instant up to a day before a UTC midnight p is in the year of the day before p. */
  lemma YearBeforeMidnightOf(p: int, tz: int)
    requires p % DayMs == 0
    requires 0 < tz <= DayMs
    ensures LocalMidnightYear(p, tz) == CivilFromDays(Day(p) - 1).year
  {
    DayBeforeMidnightOf(p, tz);
  }

  /** Up to a day before a UTC midnight p, the day is the day before p. */
  lemma DayBeforeMidnightOf(p: int, tz: int)
    requires p % DayMs == 0
    requires 0 < tz <= DayMs
    ensures Day(p - tz) == Day(p) - 1
  {
    MidnightOfDay(p);
    var z := Day(p);
    DayOfShift(DayMs - tz, z - 1);
    assert p - tz == (DayMs - tz) + DayMs * (z - 1);
    assert Day(DayMs - tz) == 0;
  }

  /** The day before a January 1st falls in the year before. */
  lemma DayBeforeNewYear(z: int, n: int)
    requires CivilFromDays(z) == Civil(n, 1, 1)
    ensures CivilFromDays(z - 1).year == n - 1
  {
    JanFirstStart(z, n);
    DaysBeforeNextYear(n - 1);
    YearOfDayNumber(z - 1, n - 1);
  }

  /** January 1st of year n is the first day of year n. */
  lemma JanFirstStart(z: int, n: int)
    requires CivilFromDays(z) == Civil(n, 1, 1)
    ensures z + EpochOffset == DaysBeforeYear(n)
  {
    assert DaysFromCivil(n, 1, 1) == z;
  }

  /** A day from the first to the last day of year y is in year y. */
  lemma YearOfDayNumber(w: int, y: int)
    requires DaysBeforeYear(y) <= w + EpochOffset < DaysBeforeYear(y) + DaysInYear(y)
    ensures CivilFromDays(w).year == y
  {
    var c := CivilFromDays(w);
    DayOfYearBounds(c.year, c.month, c.day);
    YearUnique(c.year, y, w + EpochOffset);
  }

  /** The entry dated 2020-01-01 is kept in the 2019 layout one hour east of UTC. */
  lemma FilterKeepsNextNewYearExample()
    ensures var e := RawEntry("2020-01-01", None, None, None);
      e in FilterEntriesAsWritten([e], 2019, 3600000) && e !in FilterEntries([e], 2019)
  {
    var e := RawEntry("2020-01-01", None, None, None);
    ParseDateOfText(2020, 1, 1);
    FourDigits(2020);
    TwoDigitShape(1);
    assert IntToString(2020) + "-" + TwoDigitText(1) + "-" + TwoDigitText(1) == "2020-01-01";
    MidnightCivil(2020, 1, 1);
    FilterKeepsNextNewYearEastOfUtc(e, 2019, 3600000);
  }

  /** UTC midnight of a valid date is on that date. */
  lemma MidnightCivil(y: int, m: int, d: int)
    requires ValidCivil(Civil(y, m, d))
    ensures CivilFromDays(Day(DaysFromCivil(y, m, d) * DayMs)) == Civil(y, m, d)
  {
    var z := DaysFromCivil(y, m, d);
    DayOfMidnight(z);
    CivilRoundTrip(y, m, d);
  }

  /** An entry is in the year exactly when its date parses and its four year digits spell the year. */
  lemma InYearByText(e: RawEntry, year: int)
    ensures InYear(e, year) <==> ParseDate(e.date).Some? && DigitsValue(e.date[..4]) == year
  {
    if ParseDate(e.date).Some? {
      var s := e.date;
      assert DateShaped(s);
      var y, m, d := DigitsValue(s[..4]), DigitsValue(s[5..7]), DigitsValue(s[8..]);
      assert ParseDate(s) == ParseFields(y, m, d);
      CivilRoundTrip(y, m, d);
    }
  }

  /** The filter test of the year as a function value. */
  function InYearTest(year: int): RawEntry -> bool {
    e => InYear(e, year)
  }

  /** filterEntries, corrected: the entries dated in the year, in their original order. */
  function FilterEntries(entries: seq<RawEntry>, year: int): (r: seq<RawEntry>)
    ensures forall e :: e in r <==> e in entries && ParseDate(e.date).Some? && DigitsValue(e.date[..4]) == year
  {
    forall e | e in entries ensures InYear(e, year) <==> ParseDate(e.date).Some? && DigitsValue(e.date[..4]) == year {
      InYearByText(e, year);
    }
    Filter(entries, InYearTest(year))
  }

  /** The entry the layout tests build for a date: its `year-MM-DD` text, with nothing else set. */
  function TestEntry(y: int, m: nat, d: nat): RawEntry {
    RawEntry(IntToString(y) + "-" + TwoDigitText(m) + "-" + TwoDigitText(d), None, None, None)
  }

  /** A test entry of a valid date with a four-digit year passes the year's filter test exactly when it names that year. */
  lemma TestEntryInYear(y: int, m: nat, d: nat, year: int)
    requires ValidCivil(Civil(y, m, d)) && 1000 <= y <= 9999
    ensures InYearTest(year)(TestEntry(y, m, d)) <==> y == year
  {
    ParseDateOfText(y, m, d);
    DayOfMidnight(DaysFromCivil(y, m, d));
    CivilRoundTrip(y, m, d);
  }

  /** The test entries dated before 2019: 2018-12-29, 2018-12-30 and 2018-12-31. */
  function EntriesBefore(): seq<RawEntry> {
    [TestEntry(2018, 12, 29), TestEntry(2018, 12, 30), TestEntry(2018, 12, 31)]
  }

  /** The test entries dated in 2019: January 1st and 2nd, June 20th, December 30th and 31st. */
  function EntriesWithin(): seq<RawEntry> {
    [TestEntry(2019, 1, 1), TestEntry(2019, 1, 2), TestEntry(2019, 6, 20), TestEntry(2019, 12, 30), TestEntry(2019, 12, 31)]
  }

  /** The test entries dated after 2019: 2020-01-01 and 2020-01-02. */
  function EntriesAfter(): seq<RawEntry> {
    [TestEntry(2020, 1, 1), TestEntry(2020, 1, 2)]
  }

  /** None of the entries dated before 2019 passes the 2019 filter test. */
  lemma ExampleBefore()
    ensures Filter(EntriesBefore(), InYearTest(2019)) == []
  {
    var xs := EntriesBefore();
    forall i | 0 <= i < |xs| ensures !InYearTest(2019)(xs[i]) {
      if i == 0 {
        TestEntryInYear(2018, 12, 29, 2019);
      } else if i == 1 {
        TestEntryInYear(2018, 12, 30, 2019);
      } else {
        TestEntryInYear(2018, 12, 31, 2019);
      }
    }
    FilterNone(xs, InYearTest(2019));
  }

  /** Every entry dated in 2019 passes the 2019 filter test. */
  lemma ExampleWithin()
    ensures Filter(EntriesWithin(), InYearTest(2019)) == EntriesWithin()
  {
    var xs := EntriesWithin();
    forall i | 0 <= i < |xs| ensures InYearTest(2019)(xs[i]) {
      if i == 0 {
        TestEntryInYear(2019, 1, 1, 2019);
      } else if i == 1 {
        TestEntryInYear(2019, 1, 2, 2019);
      } else if i == 2 {
        TestEntryInYear(2019, 6, 20, 2019);
      } else if i == 3 {
        TestEntryInYear(2019, 12, 30, 2019);
      } else {
        TestEntryInYear(2019, 12, 31, 2019);
      }
    }
    FilterAll(xs, InYearTest(2019));
  }

  /** None of the entries dated after 2019 passes the 2019 filter test. */
  lemma ExampleAfter()
    ensures Filter(EntriesAfter(), InYearTest(2019)) == []
  {
    var xs := EntriesAfter();
    forall i | 0 <= i < |xs| ensures !InYearTest(2019)(xs[i]) {
      if i == 0 {
        TestEntryInYear(2020, 1, 1, 2019);
      } else {
        TestEntryInYear(2020, 1, 2, 2019);
      }
    }
    FilterNone(xs, InYearTest(2019));
  }

  /**
   * The filter test of the year layout: of ten entries from 2018-12-29 to
   * 2020-01-02, the 2019 layout keeps the five dated in 2019, in order.
   */
  lemma FilterEntriesExample()
    ensures FilterEntries(EntriesBefore() + EntriesWithin() + EntriesAfter(), 2019) == EntriesWithin()
  {
    ExampleFilter();
    FilterEntriesIsFilter(EntriesBefore() + EntriesWithin() + EntriesAfter(), 2019);
  }

  /** Filtering the ten test entries with the 2019 test, group by group. */
  lemma ExampleFilter()
    ensures Filter(EntriesBefore() + EntriesWithin() + EntriesAfter(), InYearTest(2019)) == EntriesWithin()
  {
    ExampleBefore();
    ExampleWithin();
    ExampleAfter();
    FilterAppend(EntriesBefore(), EntriesWithin(), InYearTest(2019));
    FilterAppend(EntriesBefore() + EntriesWithin(), EntriesAfter(), InYearTest(2019));
  }

  /** The corrected filter is Array.prototype.filter with the year's test. */
  lemma FilterEntriesIsFilter(entries: seq<RawEntry>, year: int)
    ensures FilterEntries(entries, year) == Filter(entries, InYearTest(year))
  {
  }

  /** The first day of the year as the layout builds it: Date.UTC(year, 0, 1). */
  function FirstDay(year: int): (z: int)
    ensures z == Day(DateUtc(year, 0, 1))
  {
    DaysFromCivil(UtcYear(year), 1, 1)
  }

  /** The day on which the layout's first (leading) box falls: the last week start on or before January 1st. */
  function LeadDay(year: int, weekStart: int): (s: int)
    requires IsWeekDay(weekStart)
    ensures FirstDay(year) - 6 <= s <= FirstDay(year) && DayWeekDay(s) == weekStart
    ensures forall z | s < z <= FirstDay(year) :: DayWeekDay(z) != weekStart
  {
    var f := FirstDay(year);
    PrevWeekDay(f, weekStart);
    f - (DayWeekDay(f) - weekStart) % 7
  }

  /** getStartOfWeekDate applied to January 1st lands on the lead day. */
  lemma LeadDayIsStartOfWeek(year: int, weekStart: int)
    requires IsWeekDay(weekStart)
    ensures Day(StartOfWeek(DateUtc(year, 0, 1), weekStart)) == LeadDay(year, weekStart)
  {
  }

  /**
   * January 1st as the layout builds it never lies in the years 0 to 99, so
   * timeFloorDate as written leaves it where it is, as the corrected floor does.
   */
  lemma FirstDayFloorExact(year: int)
    ensures TimeFloorDateAsWritten(DateUtc(year, 0, 1)) == DateUtc(year, 0, 1)
  {
    MakeDayCivil(UtcYear(year), 0, 1);
    TimeFloorAgrees(DateUtc(year, 0, 1));
    MidnightOfDay(DateUtc(year, 0, 1));
  }

  /**
   * Without a year, January 1st is Date.UTC(undefined, 0, 1), which is NaN,
   * and the walk of getStartOfWeekDate from it never reaches a week start.
   */
  lemma YearlessLeadNeverStops(weekStart: int, k: nat)
    ensures DateUtcValue(None, 0, 1) == NaN
    ensures UtcDayValue(StartOfWeekWalk(DateUtcValue(None, 0, 1), k)) != Some(weekStart)
  {
    StartOfWeekWalkNaN(weekStart, k);
  }

  /** How many boxes the layout shows: the leading days, then every day of the year and one more. */
  function BoxCount(year: int, weekStart: int): (n: nat)
    requires IsWeekDay(weekStart)
  {
    FirstDay(year) - LeadDay(year, weekStart) + DaysInYear(UtcYear(year)) + 1
  }

  /** The boxes the layout generates: one empty box per shown day, labelled with its date. */
  function YearBoxes(year: int, weekStart: int): (r: seq<Box>)
    requires IsWeekDay(weekStart)
  {
    DayBoxes(LeadDay(year, weekStart), BoxCount(year, weekStart), DayString)
  }

  /**
   * The first loop of generateBoxes: one box per day from `from` up to, not
   * including, `until`; both are midnights, of days s and f.
   */
  method LeadingBoxes(from: int, until: int, ghost s: int, ghost f: int) returns (boxes: seq<Box>)
    requires from == s * DayMs && until == f * DayMs && s <= f
    ensures |boxes| == f - s && boxes == DayBoxes(s, |boxes|, DayString)
  {
    var leadingDays := from;
    boxes := [];
    while leadingDays < until
      invariant leadingDays == (s + |boxes|) * DayMs && s + |boxes| <= f
      invariant boxes == DayBoxes(s, |boxes|, DayString)
      decreases until - leadingDays
    {
      DayOfMidnight(s + |boxes|);
      boxes := PushDate(boxes, leadingDays, s, |boxes|);
      leadingDays := IncrementDate(leadingDays, 1);
    }
  }

  /**
   * The second loop of generateBoxes: one box for each of days 0 to `lastDay`
   * counted from `first`, the midnight of day f.
   */
  method YearDayBoxes(first: int, lastDay: int, ghost f: int) returns (boxes: seq<Box>)
    requires lastDay >= 0 && first == f * DayMs
    ensures boxes == DayBoxes(f, lastDay + 1, DayString)
  {
    boxes := [];
    var day := 0;
    while day <= lastDay
      invariant 0 <= day <= lastDay + 1 && |boxes| == day
      invariant boxes == DayBoxes(f, day, DayString)
    {
      var boxDate := IncrementDate(first, day);
      DayOfMidnight(f + day);
      boxes := PushDate(boxes, boxDate, f, day);
      day := day + 1;
    }
  }

  /**
   * generateBoxes: boxes for the days from the start of the week holding
   * January 1st up to January 1st, then for days 0 through the day number of
   * December 31st counted from January 1st, inclusive.
   */
  method GenerateBoxes(year: int, weekStart: int) returns (boxes: seq<Box>)
    requires IsWeekDay(weekStart)
    ensures boxes == YearBoxes(year, weekStart)
  {
    var firstDayOfYear := DateUtc(year, 0, 1);
    var leadingDays := GetStartOfWeekDate(firstDayOfYear, weekStart);
    LeadDayIsStartOfWeek(year, weekStart);
    ghost var s, f := LeadDay(year, weekStart), FirstDay(year);
    MidnightOfDay(leadingDays);
    MidnightOfDay(firstDayOfYear);
    var leading := LeadingBoxes(leadingDays, firstDayOfYear, s, f);
    var lastDayOfYear := DateUtc(year, 11, 31);
    var numberOfDaysInYear := DaysIntoYear(lastDayOfYear);
    DaysIntoYearLastDay(year);
    var days := YearDayBoxes(firstDayOfYear, numberOfDaysInYear, f);
    boxes := leading + days;
    DayBoxesJoin(s, |leading|, f, numberOfDaysInYear + 1, BoxCount(year, weekStart), DayString);
  }

  /**
   * The shape of the year layout: the first box falls on the week start, at
   * most six leading boxes precede January 1st of the year, the boxes run on
   * one day at a time, and the last is January 1st of the following year.
   */
  lemma YearBoxesShape(year: int, weekStart: int)
    requires IsWeekDay(weekStart)
    ensures var s, y, lead := LeadDay(year, weekStart), UtcYear(year), FirstDay(year) - LeadDay(year, weekStart);
      && 0 <= lead <= 6
      && |YearBoxes(year, weekStart)| == lead + DaysInYear(y) + 1
      && DayWeekDay(s) == weekStart
      && s + lead == DaysFromCivil(y, 1, 1)
      && s + |YearBoxes(year, weekStart)| - 1 == DaysFromCivil(y + 1, 1, 1)
  {
    DaysBeforeNextYear(UtcYear(year));
  }

  /** No date appears twice among the year layout's boxes. */
  lemma YearBoxesDistinct(year: int, weekStart: int)
    requires IsWeekDay(weekStart)
    ensures var r := YearBoxes(year, weekStart);
      forall i, j | 0 <= i < j < |r| :: r[i].date != r[j].date
  {
    DayStringsDistinct();
    DayBoxesDistinct(LeadDay(year, weekStart), BoxCount(year, weekStart), DayString);
  }
}
