/**
 * The layout base class and its two subclasses as one sum type: the base
 * class supplies the day-of-week labels, rotated to the configured first day
 * of the week, and its other operations throw "Not Implemented"; the year
 * and rolling layouts override them.
 */
module Layout {
  import opened Common
  import opened Entries
  import opened Boxes
  import opened Calendar
  import YearLayout
  import RollingLayout

  /** DOW_LABELS: the week-day names, Sunday first. */
  const DowLabels: seq<string> := ["Sun", "Mon", "Tue", "Wed", "Thu", "Fri", "Sat"]

  /**
   * How Array.prototype.slice reads an index into a list of `len` elements:
   * a negative index counts back from the end, and either kind is clamped to
   * the list.
   */
  function SliceIndex(k: int, len: nat): (r: nat)
    ensures r <= len
    ensures 0 <= k <= len ==> r == k
    ensures -(len as int) <= k < 0 ==> r as int == len as int + k
    ensures k < -(len as int) ==> r == 0
    ensures len < k ==> r == len
  {
    if k < 0 then (if len + k > 0 then len + k else 0) else if k < len then k else len
  }

  /** Array.prototype.slice(start, end). */
  function Slice<T>(xs: seq<T>, start: int, end: int): (r: seq<T>)
    ensures var a, b := SliceIndex(start, |xs|), SliceIndex(end, |xs|);
      a <= b ==> r == xs[a..b]
    ensures SliceIndex(end, |xs|) <= SliceIndex(start, |xs|) ==> r == []
  {
    var a, b := SliceIndex(start, |xs|), SliceIndex(end, |xs|);
    if a <= b then xs[a..b] else []
  }

  /**
   * getDayOfWeekLabels: the labels from the configured first day of the week
   * to the end, then the ones before it.
   */
  function DayOfWeekLabels(dowStart: int): (r: seq<string>)
    ensures r == Rotate(DowLabels, SliceIndex(dowStart, 7))
  {
    Slice(DowLabels, dowStart, 7) + Slice(DowLabels, 0, dowStart)
  }

  /**
   * Whatever the configured start, the labels are the seven week-day names,
   * each once; for a start from -7 to 7 label i names week day start + i
   * (modulo 7), so a start from 0 to 6 puts that day first.
   */
  lemma DayOfWeekLabelsRotated(dowStart: int)
    ensures |DayOfWeekLabels(dowStart)| == 7
    ensures multiset(DayOfWeekLabels(dowStart)) == multiset(DowLabels)
    ensures -7 <= dowStart <= 7 ==>
      forall i | 0 <= i < 7 :: DayOfWeekLabels(dowStart)[i] == DowLabels[(dowStart + i) % 7]
    ensures 0 <= dowStart <= 6 ==> DayOfWeekLabels(dowStart)[0] == DowLabels[dowStart]
  {
    RotatePermutes(DowLabels, SliceIndex(dowStart, 7));
    if -7 <= dowStart <= 7 {
      RotateWeek(DowLabels, dowStart);
    }
  }

  /** Seven items rotated as slice(start) + slice(0, start): item i is item start + i, round the end. */
  lemma RotateWeek<T>(xs: seq<T>, start: int)
    requires |xs| == 7 && -7 <= start <= 7
    ensures forall i | 0 <= i < 7 :: Rotate(xs, SliceIndex(start, 7))[i] == xs[(start + i) % 7]
    ensures 0 <= start <= 6 ==> Rotate(xs, SliceIndex(start, 7))[0] == xs[start]
  {
    var k := SliceIndex(start, 7);
    forall i | 0 <= i < 7
      ensures Rotate(xs, k)[i] == xs[(start + i) % 7]
    {
      RotateAt(xs, k, i);
      WeekIndex(start, k, i);
    }
    WeekIndex(start, k, 0);
  }

  /** Counting i days on from the slice index k of a week start, round the end of the week. */
  lemma WeekIndex(start: int, k: int, i: int)
    requires -7 <= start <= 7 && 0 <= i < 7
    requires k == if start < 0 then 7 + start else start
    ensures i < 7 - k ==> (start + i) % 7 == k + i
    ensures 7 - k <= i ==> (start + i) % 7 == i - (7 - k)
    ensures 0 <= start <= 6 && i == 0 ==> (start + i) % 7 == start
  {
  }

  /** A week starting on Sunday is labelled Sun..Sat; one starting on Monday, Mon..Sun. */
  lemma DayOfWeekLabelsExamples()
    ensures DayOfWeekLabels(0) == ["Sun", "Mon", "Tue", "Wed", "Thu", "Fri", "Sat"]
    ensures DayOfWeekLabels(1) == ["Mon", "Tue", "Wed", "Thu", "Fri", "Sat", "Sun"]
  {
    assert DowLabels[1..] + DowLabels[..1] == ["Mon", "Tue", "Wed", "Thu", "Fri", "Sat", "Sun"];
  }

  /** The layout classes: the abstract base, a calendar year, and the rolling year to the clock's day. */
  datatype LayoutKind = BaseLayout | YearKind(year: int) | RollingKind

  /** filterEntries, dispatched on the layout's class; the clock is read by the rolling layout only. */
  function FilterEntries(layout: LayoutKind, entries: seq<RawEntry>, settings: Settings, clock: int): (r: Result<seq<RawEntry>>)
    requires IsWeekDay(settings.weekStart) && IsWeekDay(settings.weekEnd)
    ensures r.Fail? <==> layout.BaseLayout?
    ensures r.Fail? ==> r.error == NotImplemented
    ensures r.Ok? ==> forall e | e in r.value :: e in entries
    ensures layout.YearKind? ==> r == Ok(YearLayout.FilterEntries(entries, layout.year))
    ensures layout.RollingKind? ==> r == Ok(RollingLayout.FilterEntries(entries, clock, settings.weekStart, settings.weekEnd))
  {
    match layout
    case BaseLayout => Fail(NotImplemented)
    case YearKind(year) => Ok(YearLayout.FilterEntries(entries, year))
    case RollingKind => Ok(RollingLayout.FilterEntries(entries, clock, settings.weekStart, settings.weekEnd))
  }

  /** getMonthLabels, dispatched on the layout's class. */
  method GetMonthLabels(layout: LayoutKind, clock: int) returns (r: Result<seq<string>>)
    ensures r.Fail? <==> layout.BaseLayout?
    ensures r.Fail? ==> r.error == NotImplemented
    ensures layout.YearKind? ==> r == Ok(YearLayout.MonthLabels())
    ensures layout.RollingKind? ==> r == Ok(RollingLayout.MonthsAfter(Month0(clock)))
  {
    match layout {
      case BaseLayout =>
        r := Fail(NotImplemented);
      case YearKind(_) =>
        r := Ok(YearLayout.MonthLabels());
      case RollingKind =>
        var labels := RollingLayout.GetMonthLabels(clock);
        r := Ok(labels);
    }
  }

  /** generateBoxes, dispatched on the layout's class. */
  method GenerateBoxes(layout: LayoutKind, settings: Settings, clock: int) returns (r: Result<seq<Box>>)
    requires IsWeekDay(settings.weekStart) && IsWeekDay(settings.weekEnd)
    ensures r.Fail? <==> layout.BaseLayout?
    ensures r.Fail? ==> r.error == NotImplemented
    ensures layout.YearKind? ==> r == Ok(YearLayout.YearBoxes(layout.year, settings.weekStart))
    ensures layout.RollingKind? ==> r == Ok(RollingLayout.RollingBoxes(clock, settings.weekStart, settings.weekEnd))
  {
    match layout {
      case BaseLayout =>
        r := Fail(NotImplemented);
      case YearKind(year) =>
        var boxes := YearLayout.GenerateBoxes(year, settings.weekStart);
        r := Ok(boxes);
      case RollingKind =>
        r := RollingLayout.GenerateBoxes(clock, settings.weekStart, settings.weekEnd);
    }
  }
}
