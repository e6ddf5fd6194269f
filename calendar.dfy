/**
 * The proleptic Gregorian civil calendar on ECMAScript time values
 * (section 21.4.1 of ECMA-262): a time value is an integer number of
 * milliseconds since 1970-01-01T00:00:00Z, its day number is that value
 * floor-divided by the length of a day, and the calendar fields (year,
 * month, day of month, week day) are functions of the day number alone.
 */
module Calendar {

  /** Milliseconds in one day (msPerDay). */
  const DayMs: int := 86400000

  /** Days from 0000-01-01 to 1970-01-01. */
  const EpochOffset: int := 719528

  /** Days in one 400-year cycle of the Gregorian calendar. */
  const EraDays: int := 146097

  /** Day(t): the day number of a time value (Dafny's `/` floors for a positive divisor). */
  function Day(t: int): int {
    t / DayMs
  }

  /** The week day of a day number: 0 is Sunday; 1970-01-01 was a Thursday (4). */
  function DayWeekDay(z: int): (w: int)
    ensures 0 <= w < 7
  {
    (z + 4) % 7
  }

  /** WeekDay(t). */
  function WeekDay(t: int): (w: int)
    ensures 0 <= w < 7
  {
    DayWeekDay(Day(t))
  }

  /** k days after day z, the week day has advanced by k (mod 7). */
  lemma WeekDayStep(z: int, k: int)
    ensures DayWeekDay(z + k) == (DayWeekDay(z) + k) % 7
  {
    var q, r := (z + 4) / 7, (z + 4) % 7;
    assert z + k + 4 == 7 * q + (r + k);
    assert (7 * q + (r + k)) % 7 == (r + k) % 7;
  }

  /** Within a week, week day e is reached from week day w after exactly (e - w) % 7 days. */
  lemma WeekDayReach(w: int, e: int, k: int)
    requires 0 <= w < 7 && 0 <= e < 7 && 0 <= k < 7
    ensures (w + k) % 7 == e <==> k == (e - w) % 7
  {
    if w + k < 7 {
      assert (w + k) % 7 == w + k;
    } else {
      assert (w + k) % 7 == w + k - 7;
    }
    if e >= w {
      assert (e - w) % 7 == e - w;
    } else {
      assert (e - w) % 7 == e - w + 7;
    }
  }

  /** Counting forward from day z, week day e is first reached after (e - DayWeekDay(z)) % 7 days. */
  lemma NextWeekDay(z: int, e: int)
    requires 0 <= e < 7
    ensures var k := (e - DayWeekDay(z)) % 7;
      0 <= k <= 6 && DayWeekDay(z + k) == e && forall y | z <= y < z + k :: DayWeekDay(y) != e
  {
    var w := DayWeekDay(z);
    var k := (e - w) % 7;
    WeekDayStep(z, k);
    WeekDayReach(w, e, k);
    forall y | z <= y < z + k
      ensures DayWeekDay(y) != e
    {
      WeekDayStep(z, y - z);
      WeekDayReach(w, e, y - z);
    }
  }

  /** Counting back from day z, week day s is first reached after (DayWeekDay(z) - s) % 7 days. */
  lemma PrevWeekDay(z: int, s: int)
    requires 0 <= s < 7
    ensures var k := (DayWeekDay(z) - s) % 7;
      0 <= k <= 6 && DayWeekDay(z - k) == s && forall y | z - k < y <= z :: DayWeekDay(y) != s
  {
    var w := DayWeekDay(z);
    var k := (w - s) % 7;
    WeekDayStep(z - k, k);
    WeekDayReach(s, w, k);
    forall y | z - k < y <= z
      ensures DayWeekDay(y) != s
    {
      WeekDayStep(y, z - y);
      WeekDayReach(DayWeekDay(y), w, z - y);
      WeekDayReach(s, w, z - y);
    }
  }

  /** Moving a time value by whole days moves its day number by as many and keeps its time of day. */
  lemma DayOfShift(t: int, k: int)
    ensures Day(t + DayMs * k) == Day(t) + k
    ensures (t + DayMs * k) % DayMs == t % DayMs
  {
    var a, b := (t + DayMs * k) / DayMs, t / DayMs;
    assert DayMs * a <= t + DayMs * k < DayMs * a + DayMs;
    assert DayMs * b <= t < DayMs * b + DayMs;
  }

  /** A time value at midnight is its day number times the length of a day. */
  lemma MidnightOfDay(t: int)
    requires t % DayMs == 0
    ensures t == Day(t) * DayMs
  {
  }

  /** The distance between two midnights, in days. */
  lemma MidnightDistance(a: int, b: int)
    ensures (a * DayMs - b * DayMs) / DayMs == a - b
  {
    assert a * DayMs - b * DayMs == (a - b) * DayMs;
  }

  /** Midnight of day z lies on day z. */
  lemma DayOfMidnight(z: int)
    ensures Day(z * DayMs) == z && (z * DayMs) % DayMs == 0
  {
    DayOfShift(0, z);
  }

  predicate IsLeap(y: int) {
    y % 4 == 0 && (y % 100 != 0 || y % 400 == 0)
  }

  function DaysInYear(y: int): int {
    if IsLeap(y) then 366 else 365
  }

  function DaysInMonth(y: int, m: int): (n: int)
    requires 1 <= m <= 12
    ensures 28 <= n <= 31
  {
    if m == 2 then (if IsLeap(y) then 29 else 28)
    else if m == 4 || m == 6 || m == 9 || m == 11 then 30
    else 31
  }

  /** Days of a common year that lie before the first of month m (m = 13 counts the whole year). */
  function MonthStart(m: int): int
    requires 1 <= m <= 13
  {
    if m == 1 then 0 else if m == 2 then 31 else if m == 3 then 59
    else if m == 4 then 90 else if m == 5 then 120 else if m == 6 then 151
    else if m == 7 then 181 else if m == 8 then 212 else if m == 9 then 243
    else if m == 10 then 273 else if m == 11 then 304 else if m == 12 then 334
    else 365
  }

  /** Days of year y that lie before the first of month m; a leap day counts from March on. */
  function DaysBeforeMonth(y: int, m: int): int
    requires 1 <= m <= 13
  {
    MonthStart(m) + (if m >= 3 && IsLeap(y) then 1 else 0)
  }

  /** Month m of year y ends where month m + 1 begins. */
  lemma MonthLength(y: int, m: int)
    requires 1 <= m <= 12
    ensures DaysBeforeMonth(y, m + 1) == DaysBeforeMonth(y, m) + DaysInMonth(y, m)
  {
  }

  /**
   * Days from 0000-01-01 to January 1 of year y, negative before year 0: the
   * three quotients count the leap years in [0, y) (or, negated, in [y, 0)).
   */
  function DaysBeforeYear(y: int): int {
    365 * y + (y + 3) / 4 - (y + 99) / 100 + (y + 399) / 400
  }

  /** A calendar date; the month runs 1..12 and the day of month from 1. */
  datatype Civil = Civil(year: int, month: int, day: int)

  predicate ValidCivil(c: Civil) {
    1 <= c.month <= 12 && 1 <= c.day <= DaysInMonth(c.year, c.month)
  }

  /** The day number of a calendar date (MakeDay for an in-range month and day). */
  function DaysFromCivil(y: int, m: int, d: int): int
    requires 1 <= m <= 12
  {
    DaysBeforeYear(y) - EpochOffset + DaysBeforeMonth(y, m) + d - 1
  }

  lemma LeapPeriodic(y: int, e: int)
    ensures IsLeap(y + 400 * e) == IsLeap(y)
  {
    assert (y + 400 * e) / 4 == y / 4 + 100 * e;
    assert (y + 400 * e) / 100 == y / 100 + 4 * e;
    assert (y + 400 * e) / 400 == y / 400 + e;
  }

  lemma DaysBeforeMonthFull(y: int)
    ensures DaysBeforeMonth(y, 13) == DaysInYear(y)
  {
  }

  lemma {:induction false} DaysBeforeMonthMonotone(y: int, a: int, b: int)
    requires 1 <= a <= b <= 13
    ensures DaysBeforeMonth(y, a) + 28 * (b - a) <= DaysBeforeMonth(y, b)
    decreases b - a
  {
    if a < b {
      DaysBeforeMonthMonotone(y, a, b - 1);
      MonthLength(y, b - 1);
    }
  }

  lemma DaysBeforeNextYear(y: int)
    ensures DaysBeforeYear(y + 1) == DaysBeforeYear(y) + DaysInYear(y)
  {
    QuotientStep4(y);
    QuotientStep100(y);
    QuotientStep400(y);
    DivisorChain(y);
  }

  /** A multiple of 400 is one of 100, and a multiple of 100 one of 4. */
  lemma DivisorChain(y: int)
    ensures y % 400 == 0 ==> y % 100 == 0
    ensures y % 100 == 0 ==> y % 4 == 0
  {
    if y % 400 == 0 {
      MultipleOf(y, 400 * (y / 400), 100, 4 * (y / 400));
    }
    if y % 100 == 0 {
      MultipleOf(y, 100 * (y / 100), 4, 25 * (y / 100));
    }
  }

  /** y == d * k leaves no remainder on division by d. */
  lemma MultipleOf(y: int, x: int, d: int, k: int)
    requires y == x && x == d * k && 0 < d
    ensures y % d == 0
  {
    var q, r := y / d, y % d;
    assert d * (k - q) == r;
    MulSign(d, k - q);
  }

  /** A positive d times a non-zero integer is at least d away from 0. */
  lemma MulSign(d: int, m: int)
    requires 0 < d
    ensures m >= 1 ==> d * m >= d
    ensures m <= -1 ==> d * m <= -d
  {
    if m >= 1 {
      assert d * m == d + d * (m - 1);
    } else if m <= -1 {
      assert d * m == -d + d * (m + 1);
    }
  }

  lemma QuotientStep4(y: int)
    ensures (y + 4) / 4 - (y + 3) / 4 == if y % 4 == 0 then 1 else 0
  {
    var q, r := y / 4, y % 4;
    assert y + 4 == 4 * (q + 1) + r;
  }

  lemma QuotientStep100(y: int)
    ensures (y + 100) / 100 - (y + 99) / 100 == if y % 100 == 0 then 1 else 0
  {
    var q, r := y / 100, y % 100;
    assert y + 100 == 100 * (q + 1) + r;
  }

  lemma QuotientStep400(y: int)
    ensures (y + 400) / 400 - (y + 399) / 400 == if y % 400 == 0 then 1 else 0
  {
    var q, r := y / 400, y % 400;
    assert y + 400 == 400 * (q + 1) + r;
  }

  lemma DaysBeforeYearEra(e: int, k: int)
    ensures DaysBeforeYear(400 * e + k) == e * EraDays + DaysBeforeYear(k)
  {
    assert (400 * e + k + 3) / 4 == 100 * e + (k + 3) / 4;
    assert (400 * e + k + 99) / 100 == 4 * e + (k + 99) / 100;
    assert (400 * e + k + 399) / 400 == e + (k + 399) / 400;
  }

  lemma {:induction false} DaysBeforeYearMonotone(a: int, b: int)
    requires a <= b
    ensures DaysBeforeYear(a) + 365 * (b - a) <= DaysBeforeYear(b)
    decreases b - a
  {
    if a < b {
      DaysBeforeYearMonotone(a, b - 1);
      DaysBeforeNextYear(b - 1);
    }
  }

  /** The year of era whose first day is the last one at or before day `doe` of the era. */
  function YearSearch(doe: int, k: int): int
    requires 0 <= k < 400 && DaysBeforeYear(k) <= doe < EraDays
    decreases 400 - k
  {
    if doe < DaysBeforeYear(k + 1) then k else YearSearch(doe, k + 1)
  }

  /** The year found lies in the era and its first day is the last one at or before `doe`. */
  lemma {:induction false} YearSearchBounds(doe: int, k: int)
    requires 0 <= k < 400 && DaysBeforeYear(k) <= doe < EraDays
    ensures var y := YearSearch(doe, k); k <= y < 400 && DaysBeforeYear(y) <= doe < DaysBeforeYear(y + 1)
    decreases 400 - k
  {
    if doe >= DaysBeforeYear(k + 1) {
      YearSearchBounds(doe, k + 1);
    }
  }

  /** The month of year y whose first day is the last one at or before day `doy` of the year. */
  function MonthSearch(y: int, doy: int, m: int): int
    requires 1 <= m <= 12 && DaysBeforeMonth(y, m) <= doy < DaysInYear(y)
    decreases 12 - m
  {
    if doy < DaysBeforeMonth(y, m + 1) then m else MonthSearch(y, doy, m + 1)
  }

  /** The month found lies in the year and its first day is the last one at or before `doy`. */
  lemma {:induction false} MonthSearchBounds(y: int, doy: int, m: int)
    requires 1 <= m <= 12 && DaysBeforeMonth(y, m) <= doy < DaysInYear(y)
    ensures var r := MonthSearch(y, doy, m); m <= r <= 12 && DaysBeforeMonth(y, r) <= doy < DaysBeforeMonth(y, r + 1)
    decreases 12 - m
  {
    if doy >= DaysBeforeMonth(y, m + 1) {
      MonthSearchBounds(y, doy, m + 1);
    }
  }

  /**
   * The year of day n counted from 0000-01-01, and the day within that year
   * (from 0): the era of 400 years is found by division, the year within the
   * era by search.
   */
  function YearOfDays(n: int): (int, int) {
    var era := n / EraDays;
    var doe := n % EraDays;
    var yoe := YearSearch(doe, 0);
    (400 * era + yoe, doe - DaysBeforeYear(yoe))
  }

  /** Day n is the day r.1 (from 0) of the year r.0 found. */
  lemma YearOfDaysBounds(n: int)
    ensures var r := YearOfDays(n); DaysBeforeYear(r.0) + r.1 == n && 0 <= r.1 < DaysInYear(r.0)
  {
    var era := n / EraDays;
    var doe := n % EraDays;
    YearSearchBounds(doe, 0);
    var yoe := YearSearch(doe, 0);
    var y := 400 * era + yoe;
    assert YearOfDays(n) == (y, doe - DaysBeforeYear(yoe));
    YearOfEra(n, era, doe, yoe, y);
  }

  /** Day `doe` of an era that falls in year yoe of the era is day doe - DaysBeforeYear(yoe) of its year. */
  lemma YearOfEra(n: int, era: int, doe: int, yoe: int, y: int)
    requires era == n / EraDays && doe == n % EraDays && y == 400 * era + yoe
    requires DaysBeforeYear(yoe) <= doe < DaysBeforeYear(yoe + 1)
    ensures DaysBeforeYear(y) + (doe - DaysBeforeYear(yoe)) == n
    ensures 0 <= doe - DaysBeforeYear(yoe) < DaysInYear(y)
  {
    DaysBeforeYearEra(era, yoe);
    LeapPeriodic(yoe, era);
    DaysBeforeNextYear(yoe);
  }

  /** The month and day of month of day `doy` (from 0) of year y. */
  function MonthOfDay(y: int, doy: int): (int, int)
    requires 0 <= doy < DaysInYear(y)
  {
    var m := MonthSearch(y, doy, 1);
    (m, doy - DaysBeforeMonth(y, m) + 1)
  }

  /** The month and day found make a valid date that is day `doy` of year y. */
  lemma MonthOfDayBounds(y: int, doy: int)
    requires 0 <= doy < DaysInYear(y)
    ensures var r := MonthOfDay(y, doy); ValidCivil(Civil(y, r.0, r.1)) && DaysBeforeMonth(y, r.0) + r.1 - 1 == doy
  {
    MonthSearchBounds(y, doy, 1);
    MonthLength(y, MonthSearch(y, doy, 1));
  }

  /** The calendar date of a day number; the inverse of DaysFromCivil. */
  function CivilFromDays(z: int): (c: Civil)
    ensures ValidCivil(c)
    ensures DaysFromCivil(c.year, c.month, c.day) == z
  {
    YearOfDaysBounds(z + EpochOffset);
    var yd := YearOfDays(z + EpochOffset);
    MonthOfDayBounds(yd.0, yd.1);
    var md := MonthOfDay(yd.0, yd.1);
    Civil(yd.0, md.0, md.1)
  }

  /** Days into its year of a valid date, counted from 0. */
  lemma DayOfYearBounds(y: int, m: int, d: int)
    requires ValidCivil(Civil(y, m, d))
    ensures 0 <= DaysBeforeMonth(y, m) + d - 1 < DaysInYear(y)
  {
    MonthLength(y, m);
    DaysBeforeMonthMonotone(y, m + 1, 13);
  }

  /** Only one year holds day n counted from 0000-01-01. */
  lemma YearUnique(a: int, b: int, n: int)
    requires DaysBeforeYear(a) <= n < DaysBeforeYear(a) + DaysInYear(a)
    requires DaysBeforeYear(b) <= n < DaysBeforeYear(b) + DaysInYear(b)
    ensures a == b
  {
    if a < b {
      DaysBeforeLaterYear(a, b);
    } else if b < a {
      DaysBeforeLaterYear(b, a);
    }
  }

  /** A later year begins no earlier than the end of an earlier one. */
  lemma DaysBeforeLaterYear(a: int, b: int)
    requires a < b
    ensures DaysBeforeYear(a) + DaysInYear(a) <= DaysBeforeYear(b)
  {
    DaysBeforeNextYear(a);
    DaysBeforeYearMonotone(a + 1, b);
  }

  /** Only one month of year y holds day `doy` of the year. */
  lemma MonthUnique(y: int, a: int, b: int, doy: int)
    requires 1 <= a <= 12 && 1 <= b <= 12
    requires DaysBeforeMonth(y, a) <= doy < DaysBeforeMonth(y, a) + DaysInMonth(y, a)
    requires DaysBeforeMonth(y, b) <= doy < DaysBeforeMonth(y, b) + DaysInMonth(y, b)
    ensures a == b
  {
    MonthLength(y, a);
    MonthLength(y, b);
    if a < b {
      DaysBeforeMonthMonotone(y, a + 1, b);
    } else if b < a {
      DaysBeforeMonthMonotone(y, b + 1, a);
    }
  }

  /** The calendar date of the day number of a valid date is that date. */
  lemma CivilRoundTrip(y: int, m: int, d: int)
    requires ValidCivil(Civil(y, m, d))
    ensures CivilFromDays(DaysFromCivil(y, m, d)) == Civil(y, m, d)
  {
    var z := DaysFromCivil(y, m, d);
    var c := CivilFromDays(z);
    DayOfYearBounds(y, m, d);
    DayOfYearBounds(c.year, c.month, c.day);
    YearUnique(c.year, y, z + EpochOffset);
    MonthUnique(y, c.month, m, DaysBeforeMonth(y, m) + d - 1);
  }

  /** Two day numbers with the same calendar date are the same day. */
  lemma CivilInjective(z1: int, z2: int)
    requires CivilFromDays(z1) == CivilFromDays(z2)
    ensures z1 == z2
  {
  }

  function Year(t: int): int {
    CivilFromDays(Day(t)).year
  }

  /** getUTCMonth: 0 = January .. 11 = December. */
  function Month0(t: int): (m: int)
    ensures 0 <= m <= 11
  {
    CivilFromDays(Day(t)).month - 1
  }

  /** getUTCDate: the day of the month, from 1. */
  function DateOfMonth(t: int): (d: int)
    ensures 1 <= d <= 31
  {
    CivilFromDays(Day(t)).day
  }

  /**
   * MakeDay(year, month, date) of ECMA-262: the month is normalised into the
   * year, and the date is added to the first of that month even when it lies
   * outside the month (date 0 is the last day of the previous month).
   */
  function MakeDay(y: int, m0: int, dt: int): int {
    DaysFromCivil(y + m0 / 12, m0 % 12 + 1, 1) + dt - 1
  }

  /** For a month in range, MakeDay counts from the first of that month. */
  lemma MakeDayInMonth(y: int, m0: int, dt: int)
    requires 0 <= m0 <= 11
    ensures MakeDay(y, m0, dt) == DaysFromCivil(y, m0 + 1, 1) + dt - 1
  {
    assert m0 / 12 == 0 && m0 % 12 == m0;
  }

  /** For a month in range and a day within it, MakeDay gives the day of that date. */
  lemma MakeDayCivil(y: int, m0: int, dt: int)
    requires 0 <= m0 <= 11 && 1 <= dt <= DaysInMonth(y, m0 + 1)
    ensures MakeDay(y, m0, dt) == DaysFromCivil(y, m0 + 1, dt)
    ensures CivilFromDays(MakeDay(y, m0, dt)) == Civil(y, m0 + 1, dt)
  {
    MakeDayInMonth(y, m0, dt);
    CivilRoundTrip(y, m0 + 1, dt);
  }

  /** Within one year, MakeDay counts days from the day before January 1st. */
  lemma MakeDayInYear(y: int, m0: int, dt: int)
    requires 0 <= m0 <= 11
    ensures MakeDay(y, m0, dt) - MakeDay(y, 0, 0) == DaysBeforeMonth(y, m0 + 1) + dt
  {
    MakeDayInMonth(y, m0, dt);
    MakeDayInMonth(y, 0, 0);
  }

  /** Day numbers of a valid date lie within the days of its year. */
  lemma DayWithinYear(y: int, m: int, d: int)
    requires ValidCivil(Civil(y, m, d))
    ensures DaysBeforeYear(y) - EpochOffset <= DaysFromCivil(y, m, d) < DaysBeforeYear(y + 1) - EpochOffset
  {
    DayOfYearBounds(y, m, d);
    DaysBeforeNextYear(y);
  }

  /** A day on or after January 1st of year y0 falls in year y0 or later. */
  lemma YearAtLeast(z: int, y0: int)
    requires z + EpochOffset >= DaysBeforeYear(y0)
    ensures CivilFromDays(z).year >= y0
  {
    var c := CivilFromDays(z);
    DayWithinYear(c.year, c.month, c.day);
    if c.year < y0 {
      DaysBeforeYearMonotone(c.year + 1, y0);
    }
  }
}
