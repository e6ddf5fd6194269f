/**
 * Calendar-day arithmetic on UTC time values (src/js/DateUtil.ts): zero
 * padding, YYYY-MM-DD formatting, day equality that ignores the time of day,
 * adding and subtracting whole days, flooring to midnight, and the walk to
 * the first or last day of a week. A `Date` is its time value, an integer
 * number of milliseconds since the epoch; Date objects are never mutated by
 * these operations, which here is simply the absence of state.
 */
module DateUtil {
  import opened Common
  import opened Calendar
  import opened Decimal

  const Months: seq<string> :=
    ["Jan", "Feb", "Mar", "Apr", "May", "Jun", "Jul", "Aug", "Sep", "Oct", "Nov", "Dec"]

  function Zeros(n: nat): (z: string)
    ensures |z| == n && forall i | 0 <= i < n :: z[i] == '0'
  {
    seq(n, _ => '0')
  }

  /** What padLeft returns: the input with '0's prepended until it is `length` long. */
  function ZeroPadded(input: string, length: int): (r: string)
    ensures |r| == if |input| < length then length else |input|
    ensures r[|r| - |input|..] == input
    ensures forall i | 0 <= i < |r| - |input| :: r[i] == '0'
  {
    if |input| < length then Zeros(length - |input|) + input else input
  }

  /** padLeft: grows the string one '0' at a time. Callers pass numbers already as text. */
  method PadLeft(input: string, length: int) returns (str: string)
    ensures |str| == if |input| < length then length else |input|
    ensures str[|str| - |input|..] == input
    ensures forall i | 0 <= i < |str| - |input| :: str[i] == '0'
    ensures str == ZeroPadded(input, length)
  {
    str := input;
    while |str| < length
      invariant |input| <= |str|
      invariant |input| < length ==> |str| <= length
      invariant |input| >= length ==> |str| == |input|
      invariant str[|str| - |input|..] == input
      invariant forall i | 0 <= i < |str| - |input| :: str[i] == '0'
      decreases length - |str|
    {
      str := "0" + str;
    }
    var p := ZeroPadded(input, length);
    assert |p| == |str|;
    assert forall i | 0 <= i < |str| :: str[i] == p[i] by {
      forall i | 0 <= i < |str|
        ensures str[i] == p[i]
      {
        if i >= |str| - |input| {
          assert str[i] == str[|str| - |input|..][i - (|str| - |input|)];
          assert p[i] == p[|p| - |input|..][i - (|p| - |input|)];
        }
      }
    }
  }

  /**
   * Two-character text of a month or day-of-month number, a leading '0'
   * before a single digit; TwoDigitPadded shows this is padLeft(n, 2).
   */
  function TwoDigitText(n: nat): string {
    if n < 10 then "0" + NatToString(n) else NatToString(n)
  }

  /** The two-digit text is what padLeft gives for the number's text and length 2. */
  lemma TwoDigitPadded(n: nat)
    ensures TwoDigitText(n) == ZeroPadded(NatToString(n), 2)
  {
    if n < 10 {
      assert Zeros(1) == "0";
    }
  }

  /** The `year-MM-DD` text of a calendar date; the year is not padded. */
  function CivilText(c: Civil): string
    requires c.month >= 0 && c.day >= 0
  {
    IntToString(c.year) + "-" + TwoDigitText(c.month) + "-" + TwoDigitText(c.day)
  }

  /** The date text of day number z. */
  function DayString(z: int): string {
    CivilText(CivilFromDays(z))
  }

  /**
   * getDateString: the UTC full year, month (from 1) and date of t joined by
   * dashes; these are the fields of the calendar date of t's day number.
   */
  function DateString(t: int): string {
    DayString(Day(t))
  }

  lemma TwoDigitShape(n: nat)
    requires n <= 99
    ensures TwoDigitText(n) == [Digit(n / 10), Digit(n % 10)]
  {
    if n >= 10 {
      assert NatToString(n) == NatToString(n / 10) + [Digit(n % 10)];
    }
  }

  lemma TwoDigitInjective(a: nat, b: nat)
    requires a <= 99 && b <= 99 && TwoDigitText(a) == TwoDigitText(b)
    ensures a == b
  {
    TwoDigitShape(a);
    TwoDigitShape(b);
    DigitValueOfDigit(a / 10);
    DigitValueOfDigit(b / 10);
    DigitValueOfDigit(a % 10);
    DigitValueOfDigit(b % 10);
  }

  /** The date string of an instant is the text of its calendar date. */
  lemma DateStringOfCivil(t: int, y: int, m: int, d: int)
    requires ValidCivil(Civil(y, m, d)) && Day(t) == DaysFromCivil(y, m, d)
    ensures DateString(t) == IntToString(y) + "-" + TwoDigitText(m) + "-" + TwoDigitText(d)
  {
    CivilRoundTrip(y, m, d);
  }

  /** The date text of the day number of a valid date spells that date. */
  lemma DayStringOfCivil(y: int, m: int, d: int)
    requires ValidCivil(Civil(y, m, d))
    ensures DayString(DaysFromCivil(y, m, d)) == IntToString(y) + "-" + TwoDigitText(m) + "-" + TwoDigitText(d)
  {
    CivilRoundTrip(y, m, d);
  }

  lemma SplitAtSuffix(a: string, b: string, c: string, d: string)
    requires a + b == c + d && |b| == |d|
    ensures a == c && b == d
  {
    assert a == (a + b)[..|a|];
    assert c == (c + d)[..|c|];
    assert b == (a + b)[|a|..];
    assert d == (c + d)[|c|..];
  }

  /** A year text followed by two two-digit fields, each after a dash. */
  lemma DashedShape(ys: string, m: nat, d: nat)
    requires m <= 99 && d <= 99
    ensures ys + "-" + TwoDigitText(m) + "-" + TwoDigitText(d)
      == ys + ['-', Digit(m / 10), Digit(m % 10), '-', Digit(d / 10), Digit(d % 10)]
  {
    TwoDigitShape(m);
    TwoDigitShape(d);
  }

  /** Two calendar dates with the same text are the same date. */
  lemma CivilTextInjective(c1: Civil, c2: Civil)
    requires ValidCivil(c1) && ValidCivil(c2) && CivilText(c1) == CivilText(c2)
    ensures c1 == c2
  {
    var m1, d1, m2, d2 := c1.month, c1.day, c2.month, c2.day;
    DashedShape(IntToString(c1.year), m1, d1);
    DashedShape(IntToString(c2.year), m2, d2);
    var tail1 := ['-', Digit(m1 / 10), Digit(m1 % 10), '-', Digit(d1 / 10), Digit(d1 % 10)];
    var tail2 := ['-', Digit(m2 / 10), Digit(m2 % 10), '-', Digit(d2 / 10), Digit(d2 % 10)];
    SplitAtSuffix(IntToString(c1.year), tail1, IntToString(c2.year), tail2);
    IntToStringInjective(c1.year, c2.year);
    DigitValueOfDigit(m1 / 10);
    DigitValueOfDigit(m2 / 10);
    DigitValueOfDigit(m1 % 10);
    DigitValueOfDigit(m2 % 10);
    DigitValueOfDigit(d1 / 10);
    DigitValueOfDigit(d2 / 10);
    DigitValueOfDigit(d1 % 10);
    DigitValueOfDigit(d2 % 10);
  }

  /** Two day numbers have the same date text exactly when they are equal. */
  lemma DayStringInjective(z1: int, z2: int)
    ensures DayString(z1) == DayString(z2) <==> z1 == z2
  {
    if DayString(z1) == DayString(z2) {
      CivilTextInjective(CivilFromDays(z1), CivilFromDays(z2));
    }
  }

  /** Two instants have the same date string exactly when they fall on the same UTC day. */
  lemma DateStringSameDay(t1: int, t2: int)
    ensures DateString(t1) == DateString(t2) <==> Day(t1) == Day(t2)
  {
    DayStringInjective(Day(t1), Day(t2));
  }

  /** A date argument of datesMatch: an ISO date string or a Date. */
  datatype DateInput = Text(text: string) | Instant(time: int)

  function AsDateString(d: DateInput): string {
    match d
    case Text(s) => s
    case Instant(t) => DateString(t)
  }

  /** datesMatch: compares the date strings of its two arguments. */
  function DatesMatch(d1: DateInput, d2: DateInput): bool {
    AsDateString(d1) == AsDateString(d2)
  }

  /** datesMatch is symmetric, and on two Dates it holds exactly when they share a UTC day. */
  lemma DatesMatchProperties(d1: DateInput, d2: DateInput)
    ensures DatesMatch(d1, d2) == DatesMatch(d2, d1)
    ensures d1.Instant? && d2.Instant? ==> (DatesMatch(d1, d2) <==> Day(d1.time) == Day(d2.time))
  {
    if d1.Instant? && d2.Instant? {
      DateStringSameDay(d1.time, d2.time);
    }
  }

  /** incrementDate: `count` whole days later, at the same time of day. */
  function IncrementDate(t: int, count: int): (r: int)
    ensures Day(r) == Day(t) + count && r % DayMs == t % DayMs
  {
    DayOfShift(t, count);
    t + DayMs * count
  }

  /** decrementDate: `count` whole days earlier, at the same time of day. */
  function DecrementDate(t: int, count: int): (r: int)
    ensures Day(r) == Day(t) - count && r % DayMs == t % DayMs
  {
    DayOfShift(t, -count);
    t - DayMs * count
  }

  lemma IncrementDecrementInverse(t: int, count: int)
    ensures DecrementDate(IncrementDate(t, count), count) == t
    ensures IncrementDate(DecrementDate(t, count), count) == t
  {
  }

  /**
   * Date.UTC(y, m, d) as ECMA-262 defines it: a year from 0 to 99 is read as
   * 1900 + y before the day is made.
   */
  function DateUtc(y: int, m0: int, dt: int): (r: int)
    ensures r % DayMs == 0 && Day(r) == MakeDay(UtcYear(y), m0, dt)
  {
    DayOfMidnight(MakeDay(UtcYear(y), m0, dt));
    MakeDay(UtcYear(y), m0, dt) * DayMs
  }

  /** The year Date.UTC actually uses for a given year argument. */
  function UtcYear(y: int): (r: int)
    ensures r < 0 || r >= 100
    ensures 0 <= y <= 99 ==> r == 1900 + y
    ensures (y < 0 || y >= 100) ==> r == y
  {
    if 0 <= y <= 99 then 1900 + y else y
  }

  /** timeFloorDate as the source writes it, through Date.UTC. */
  function TimeFloorDateAsWritten(t: int): int {
    DateUtc(Year(t), Month0(t), DateOfMonth(t))
  }

  /** A date of the years 0 to 99 made again with 1900 added to its year lies later, in 1900 or after. */
  lemma ShiftedDayLater(y: int, m: int, d: int)
    requires 0 <= y <= 99 && ValidCivil(Civil(y, m, d))
    ensures MakeDay(1900 + y, m - 1, d) > DaysFromCivil(y, m, d)
    ensures MakeDay(1900 + y, m - 1, d) + EpochOffset >= DaysBeforeYear(1900)
  {
    var z := MakeDay(1900 + y, m - 1, d);
    MakeDayInMonth(1900 + y, m - 1, d);
    assert z >= DaysBeforeYear(1900 + y) - EpochOffset;
    DayWithinYear(y, m, d);
    DaysBeforeYearMonotone(y + 1, 1900 + y);
    DaysBeforeYearMonotone(1900, 1900 + y);
  }

  /** An instant in the years 0 to 99 is not floored to its own day but moved 1900 years on. */
  lemma TimeFloorAsWrittenMovesEarlyYears(t: int)
    requires 0 <= Year(t) <= 99
    ensures Day(TimeFloorDateAsWritten(t)) > Day(t)
    ensures Year(TimeFloorDateAsWritten(t)) >= 1900
  {
    var c := CivilFromDays(Day(t));
    var z := MakeDay(1900 + c.year, c.month - 1, c.day);
    ShiftedDayLater(c.year, c.month, c.day);
    assert Day(TimeFloorDateAsWritten(t)) == z;
    DayOfMidnight(z);
    YearAtLeast(z, 1900);
  }

  /** The instant 0050-01-01T00:00Z is floored to 1950-01-01. */
  lemma TimeFloorAsWrittenYear50()
    ensures TimeFloorDateAsWritten(DaysFromCivil(50, 1, 1) * DayMs) == DaysFromCivil(1950, 1, 1) * DayMs
  {
    DayOfMidnight(DaysFromCivil(50, 1, 1));
    CivilRoundTrip(50, 1, 1);
    MakeDayCivil(1950, 0, 1);
  }

  /**
   * timeFloorDate, corrected: midnight UTC at the start of the same calendar
   * day, built from the UTC year, month and date without the 1900 shift.
   */
  function TimeFloorDate(t: int): (r: int)
    ensures r == Day(t) * DayMs
    ensures r <= t < r + DayMs
    ensures Day(r) == Day(t) && r % DayMs == 0
  {
    var c := CivilFromDays(Day(t));
    var z := MakeDay(c.year, c.month - 1, c.day);
    MakeDayCivil(c.year, c.month - 1, c.day);
    DayOfMidnight(z);
    z * DayMs
  }

  lemma TimeFloorIdempotent(t: int)
    ensures TimeFloorDate(TimeFloorDate(t)) == TimeFloorDate(t)
    ensures DateString(TimeFloorDate(t)) == DateString(t)
  {
    DateStringSameDay(TimeFloorDate(t), t);
  }

  /**
   * Outside the years 0 to 99 the floor as written is the corrected floor:
   * there Date.UTC takes the year as given.
   */
  lemma TimeFloorAgrees(t: int)
    requires Year(t) < 0 || Year(t) >= 100
    ensures TimeFloorDateAsWritten(t) == TimeFloorDate(t)
  {
    var c := CivilFromDays(Day(t));
    assert UtcYear(Year(t)) == c.year;
    assert TimeFloorDateAsWritten(t) == MakeDay(c.year, c.month - 1, c.day) * DayMs;
  }

  /** getNow, with the clock reading passed in. */
  function GetNow(clock: int): (r: int)
    ensures r == Day(clock) * DayMs
    ensures DateString(r) == DateString(clock)
  {
    TimeFloorIdempotent(clock);
    TimeFloorDate(clock)
  }

  /** isToday: whether an ISO date string names the UTC day of the clock reading. */
  function IsToday(date: string, clock: int): (r: bool)
    ensures r <==> date == DateString(clock)
  {
    TimeFloorIdempotent(clock);
    DatesMatch(Text(date), Instant(GetNow(clock)))
  }

  /**
   * The end of the week holding t: the first midnight at or after the floor
   * of t whose week day is `endOfWeek`.
   */
  function EndOfWeek(t: int, endOfWeek: int): (r: int)
    requires IsWeekDay(endOfWeek)
    ensures r % DayMs == 0 && WeekDay(r) == endOfWeek
    ensures Day(t) <= Day(r) <= Day(t) + 6
    ensures forall z | Day(t) <= z < Day(r) :: DayWeekDay(z) != endOfWeek
    ensures WeekDay(t) == endOfWeek ==> Day(r) == Day(t)
  {
    var k := (endOfWeek - WeekDay(t)) % 7;
    NextWeekDay(Day(t), endOfWeek);
    DayOfMidnight(Day(t) + k);
    (Day(t) + k) * DayMs
  }

  /**
   * The start of the week holding t: the last midnight at or before the floor
   * of t whose week day is `startOfWeek`.
   */
  function StartOfWeek(t: int, startOfWeek: int): (r: int)
    requires IsWeekDay(startOfWeek)
    ensures r % DayMs == 0 && WeekDay(r) == startOfWeek
    ensures Day(t) - 6 <= Day(r) <= Day(t)
    ensures forall z | Day(r) < z <= Day(t) :: DayWeekDay(z) != startOfWeek
    ensures WeekDay(t) == startOfWeek ==> Day(r) == Day(t)
  {
    var k := (WeekDay(t) - startOfWeek) % 7;
    PrevWeekDay(Day(t), startOfWeek);
    DayOfMidnight(Day(t) - k);
    (Day(t) - k) * DayMs
  }

  /**
   * getEndOfWeekDate: from the floored input, step forward one day at a time
   * until the week day is `endOfWeek`. The source loops forever on a number
   * that is no week day, so this takes a week day.
   */
  method GetEndOfWeekDate(midweekDate: int, endOfWeek: int) returns (endDate: int)
    requires IsWeekDay(endOfWeek)
    ensures endDate == EndOfWeek(midweekDate, endOfWeek)
  {
    ghost var z := Day(midweekDate);
    ghost var steps := (endOfWeek - DayWeekDay(z)) % 7;
    NextWeekDay(z, endOfWeek);
    ghost var k := 0;
    endDate := TimeFloorDate(midweekDate);
    while WeekDay(endDate) != endOfWeek
      invariant 0 <= k <= steps
      invariant endDate % DayMs == 0 && Day(endDate) == z + k
      decreases steps - k
    {
      endDate := IncrementDate(endDate, 1);
      k := k + 1;
    }
    MidnightOfDay(endDate);
  }

  /**
   * getStartOfWeekDate: from the floored input, step back one day at a time
   * until the week day is `startOfWeek`; it ends within six steps because
   * week days repeat every seven days.
   */
  method GetStartOfWeekDate(midweekDate: int, startOfWeek: int) returns (startDate: int)
    requires IsWeekDay(startOfWeek)
    ensures startDate == StartOfWeek(midweekDate, startOfWeek)
  {
    ghost var z := Day(midweekDate);
    ghost var steps := (DayWeekDay(z) - startOfWeek) % 7;
    PrevWeekDay(z, startOfWeek);
    ghost var k := 0;
    startDate := TimeFloorDate(midweekDate);
    while WeekDay(startDate) != startOfWeek
      invariant 0 <= k <= steps
      invariant startDate % DayMs == 0 && Day(startDate) == z - k
      decreases steps - k
    {
      startDate := DecrementDate(startDate, 1);
      k := k + 1;
    }
    MidnightOfDay(startDate);
  }

  /**
   * A Date's time value as the source can hold it: a whole number of
   * milliseconds, or NaN, which is what Date.UTC gives for an undefined year.
   */
  datatype TimeValue = Time(ms: int) | NaN

  /** Date.UTC(year, m0, dt) with a year that may be undefined. */
  function DateUtcValue(year: Option<int>, m0: int, dt: int): TimeValue {
    match year
    case None => NaN
    case Some(y) => Time(DateUtc(y, m0, dt))
  }

  /** getUTCDay of a time value; NaN has no week day. */
  function UtcDayValue(v: TimeValue): Option<int> {
    match v
    case Time(t) => Some(WeekDay(t))
    case NaN => None
  }

  /** timeFloorDate as written, on a time value: every getter of NaN is NaN, and so is the Date.UTC of them. */
  function TimeFloorValue(v: TimeValue): TimeValue {
    match v
    case Time(t) => Time(TimeFloorDateAsWritten(t))
    case NaN => NaN
  }

  /** decrementDate by one day, on a time value: NaN minus a day is NaN. */
  function DecrementValue(v: TimeValue): TimeValue {
    match v
    case Time(t) => Time(DecrementDate(t, 1))
    case NaN => NaN
  }

  /** The value getStartOfWeekDate holds after k passes of its loop, as written. */
  function StartOfWeekWalk(v: TimeValue, k: nat): TimeValue {
    if k == 0 then TimeFloorValue(v) else DecrementValue(StartOfWeekWalk(v, k - 1))
  }

  /** From a valid time value the walk is the floored value moved back k whole days. */
  lemma {:induction false} StartOfWeekWalkTime(t: int, k: nat)
    ensures StartOfWeekWalk(Time(t), k) == Time(TimeFloorDateAsWritten(t) - k * DayMs)
  {
    if k > 0 {
      StartOfWeekWalkTime(t, k - 1);
    }
  }

  /**
   * From NaN the walk never ends: every value it reaches is NaN again, and
   * the week day of NaN is no week day, so the loop test holds at every pass.
   */
  lemma {:induction false} StartOfWeekWalkNaN(startOfWeek: int, k: nat)
    ensures StartOfWeekWalk(NaN, k) == NaN
    ensures UtcDayValue(StartOfWeekWalk(NaN, k)) != Some(startOfWeek)
  {
    if k > 0 {
      StartOfWeekWalkNaN(startOfWeek, k - 1);
    }
  }

  /**
   * `new Date(s)` for a date-only string `YYYY-MM-DD`: midnight UTC of that
   * date; anything else is an invalid date (None).
   */
  function ParseDate(s: string): (r: Option<int>)
    ensures r.Some? ==> r.value % DayMs == 0
  {
    if DateShaped(s) then ParseFields(DigitsValue(s[..4]), DigitsValue(s[5..7]), DigitsValue(s[8..])) else None
  }

  /** Four digits, a dash, two digits, a dash, two digits. */
  predicate DateShaped(s: string) {
    |s| == 10 && s[4] == '-' && s[7] == '-'
    && AllDigits(s[..4]) && AllDigits(s[5..7]) && AllDigits(s[8..])
  }

  /** Midnight UTC of a year, month and day read from a date string, when they form a date. */
  function ParseFields(y: int, m: int, d: int): (r: Option<int>)
    ensures r.Some? <==> ValidCivil(Civil(y, m, d))
    ensures r.Some? ==> Day(r.value) == DaysFromCivil(y, m, d) && r.value % DayMs == 0
  {
    if 1 <= m <= 12 && 1 <= d <= DaysInMonth(y, m) then
      DayOfMidnight(DaysFromCivil(y, m, d));
      Some(DaysFromCivil(y, m, d) * DayMs)
    else
      None
  }

  lemma DateShapedJoin(ys: string, ms: string, ds: string)
    requires |ys| == 4 && |ms| == 2 && |ds| == 2
    requires AllDigits(ys) && AllDigits(ms) && AllDigits(ds)
    ensures var s := ys + "-" + ms + "-" + ds;
      DateShaped(s) && s[..4] == ys && s[5..7] == ms && s[8..] == ds
  {
    var s := ys + "-" + ms + "-" + ds;
    assert s[..4] == ys && s[5..7] == ms && s[8..] == ds;
  }

  lemma TwoDigitsSum(s: string)
    requires |s| == 2 && AllDigits(s)
    ensures DigitsValue(s) == 10 * DigitValue(s[0]) + DigitValue(s[1])
  {
    var p := s[..1];
    assert p[..0] == [] && p[0] == s[0];
    assert DigitsValue(p) == DigitValue(s[0]);
  }

  lemma TwoDigitOfDigits(n: nat, a: int, b: int)
    requires 0 <= a <= 9 && 0 <= b <= 9 && n == 10 * a + b
    ensures TwoDigitText(n) == [Digit(a), Digit(b)]
  {
    DivTen(a, b);
    TwoDigitShape(n);
  }

  /** Two digit characters are the two-character text of the number they denote. */
  lemma TwoDigitsText(s: string)
    requires |s| == 2 && AllDigits(s)
    ensures DigitsValue(s) <= 99 && TwoDigitText(DigitsValue(s)) == s
  {
    var a, b := DigitValue(s[0]), DigitValue(s[1]);
    var n := DigitsValue(s);
    assert n == 10 * a + b by { TwoDigitsSum(s); }
    assert TwoDigitText(n) == [Digit(a), Digit(b)] by { TwoDigitOfDigits(n, a, b); }
    assert [Digit(a), Digit(b)] == s by {
      DigitOfValue(s[0]);
      DigitOfValue(s[1]);
    }
  }

  /** The two-character text of a number below 100 reads back as that number. */
  lemma TwoDigitValue(n: nat)
    requires n <= 99
    ensures AllDigits(TwoDigitText(n)) && DigitsValue(TwoDigitText(n)) == n
  {
    TwoDigitShape(n);
    DigitValueOfDigit(n / 10);
    DigitValueOfDigit(n % 10);
    TwoDigitsSum(TwoDigitText(n));
  }

  /** The fields of the text of a year, month and day read back as those numbers. */
  lemma DateTextFields(y: int, m: int, d: int)
    requires 1000 <= y <= 9999 && 1 <= m <= 12 && 1 <= d <= 31
    ensures var s := IntToString(y) + "-" + TwoDigitText(m) + "-" + TwoDigitText(d);
      DateShaped(s) && DigitsValue(s[..4]) == y && DigitsValue(s[5..7]) == m && DigitsValue(s[8..]) == d
  {
    var ys, ms, ds := IntToString(y), TwoDigitText(m), TwoDigitText(d);
    FourDigits(y);
    NatToStringRoundTrip(y);
    TwoDigitShape(m);
    TwoDigitShape(d);
    TwoDigitValue(m);
    TwoDigitValue(d);
    DateShapedJoin(ys, ms, ds);
    var s := ys + "-" + ms + "-" + ds;
    assert DigitsValue(s[..4]) == DigitsValue(ys) == y;
    assert DigitsValue(s[5..7]) == DigitsValue(ms) == m;
    assert DigitsValue(s[8..]) == DigitsValue(ds) == d;
  }

  /** The text of a valid date with a four-digit year parses to midnight of that date. */
  lemma ParseDateOfText(y: int, m: int, d: int)
    requires ValidCivil(Civil(y, m, d)) && 1000 <= y <= 9999
    ensures ParseDate(IntToString(y) + "-" + TwoDigitText(m) + "-" + TwoDigitText(d))
      == Some(DaysFromCivil(y, m, d) * DayMs)
  {
    DateTextFields(y, m, d);
  }

  /** Parsing the date string of an instant with a four-digit year gives midnight of its day. */
  lemma ParseDateString(t: int)
    requires 1000 <= Year(t) <= 9999
    ensures ParseDate(DateString(t)) == Some(TimeFloorDate(t))
  {
    var c := CivilFromDays(Day(t));
    ParseDateOfText(c.year, c.month, c.day);
  }

  lemma DateShapedSplit(s: string)
    requires DateShaped(s)
    ensures s == s[..4] + "-" + s[5..7] + "-" + s[8..]
  {
  }

  /** A parsed date string whose year has no leading zero is the date string of what it parses to. */
  lemma ParsedDateString(s: string)
    requires ParseDate(s).Some? && s[0] != '0'
    ensures DateString(ParseDate(s).value) == s
  {
    var ys, ms, ds := s[..4], s[5..7], s[8..];
    assert DateShaped(s);
    var y, m, d := DigitsValue(ys), DigitsValue(ms), DigitsValue(ds);
    assert ParseFields(y, m, d).Some?;
    FourDigitsValue(ys);
    TwoDigitsText(ms);
    TwoDigitsText(ds);
    var z := DaysFromCivil(y, m, d);
    DayOfMidnight(z);
    DateStringOfCivil(z * DayMs, y, m, d);
    DateShapedSplit(s);
  }
}
