/**
 * The IntensityResolver: the older classifier of a calendar's intensities.
 * Its constructor takes the minimum and maximum of the entries' truthy
 * intensities, falling back on the configured scale, and fills in an
 * unconfigured scale from them; isBinary says whether the calendar has a
 * single "on" level.
 */
module IntensityResolver {
  import opened Common
  import opened Entries
  import opened Intensor

  /** The calendar settings the resolver reads; a missing number is null or undefined. */
  datatype CalendarData = CalendarData(
    defaultEntryIntensity: Option<real>,
    intensityScaleStart: Option<real>,
    intensityScaleEnd: Option<real>)

  /** The resolver's fields; None stands for undefined. */
  datatype Resolver = Resolver(
    defaultEntryIntensity: Option<real>,
    minimumIntensity: Option<real>,
    maximumIntensity: Option<real>,
    intensityScaleStart: Option<real>,
    intensityScaleEnd: Option<real>)

  /** The entries' own intensities that are truthy (defined and non-zero), in order. */
  function RawIntensities(entries: seq<RawEntry>): (r: seq<real>)
    ensures forall x :: x in r <==> exists e | e in entries :: TruthyNumber(e.intensity) && e.intensity.value == x
  {
    if |entries| == 0 then []
    else
      var e := entries[|entries| - 1];
      assert forall d | d in entries :: d in entries[..|entries| - 1] || d == e;
      RawIntensities(entries[..|entries| - 1]) + (if TruthyNumber(e.intensity) then [e.intensity.value] else [])
  }

  /** `a ?? b`: a unless it is null or undefined. */
  function Coalesce(a: Option<real>, b: Option<real>): (r: Option<real>)
    ensures a.Some? ==> r == a
    ensures a.None? ==> r == b
  {
    if a.Some? then a else b
  }

  /** The constructor: data minimum and maximum, or the configured scale when there are no data. */
  function NewResolver(data: CalendarData, entries: seq<RawEntry>): (r: Resolver)
    ensures r.defaultEntryIntensity == data.defaultEntryIntensity
    ensures r.intensityScaleStart == Coalesce(data.intensityScaleStart, r.minimumIntensity)
    ensures r.intensityScaleEnd == Coalesce(data.intensityScaleEnd, r.maximumIntensity)
  {
    var intensities := RawIntensities(entries);
    var minimum := if |intensities| > 0 then Some(MinOf(intensities).v) else data.intensityScaleStart;
    var maximum := if |intensities| > 0 then Some(MaxOf(intensities).v) else data.intensityScaleEnd;
    Resolver(
      Coalesce(data.defaultEntryIntensity, data.defaultEntryIntensity),
      minimum,
      maximum,
      Coalesce(data.intensityScaleStart, minimum),
      Coalesce(data.intensityScaleEnd, maximum))
  }

  /**
   * With truthy intensities among the entries, the minimum and maximum are
   * the least and greatest of them, so the minimum is at most the maximum;
   * without any, they are the configured scale start and end.
   */
  lemma ResolverRange(data: CalendarData, entries: seq<RawEntry>)
    ensures var r := NewResolver(data, entries);
      var xs := RawIntensities(entries);
      && (|xs| == 0 ==> r.minimumIntensity == data.intensityScaleStart && r.maximumIntensity == data.intensityScaleEnd)
      && (|xs| > 0 ==>
            && r.minimumIntensity.Some? && r.maximumIntensity.Some?
            && r.minimumIntensity.value <= r.maximumIntensity.value
            && r.minimumIntensity.value in xs && r.maximumIntensity.value in xs
            && (forall x | x in xs :: r.minimumIntensity.value <= x <= r.maximumIntensity.value))
  {
    var xs := RawIntensities(entries);
    if |xs| > 0 {
      assert xs[0] in xs;
    }
  }

  /** A configured scale, 0 included, is kept; only a missing one falls back on the data. */
  lemma ResolverScale(data: CalendarData, entries: seq<RawEntry>)
    ensures data.intensityScaleStart.Some? ==> NewResolver(data, entries).intensityScaleStart == data.intensityScaleStart
    ensures data.intensityScaleEnd.Some? ==> NewResolver(data, entries).intensityScaleEnd == data.intensityScaleEnd
    ensures data.intensityScaleStart.None? ==> NewResolver(data, entries).intensityScaleStart == NewResolver(data, entries).minimumIntensity
    ensures data.intensityScaleEnd.None? ==> NewResolver(data, entries).intensityScaleEnd == NewResolver(data, entries).maximumIntensity
  {
  }

  /** isBinary: one intensity level and a one-point scale. */
  predicate IsBinary(r: Resolver) {
    r.minimumIntensity == r.maximumIntensity && r.intensityScaleStart == r.intensityScaleEnd
  }

  /**
   * Without a configured scale, a calendar is binary exactly when all of its
   * truthy intensities are equal (or there are none).
   */
  lemma BinaryWhenUniform(data: CalendarData, entries: seq<RawEntry>)
    requires data.intensityScaleStart.None? && data.intensityScaleEnd.None?
    ensures IsBinary(NewResolver(data, entries)) <==>
      forall x, y | x in RawIntensities(entries) && y in RawIntensities(entries) :: x == y
  {
    var xs := RawIntensities(entries);
    ResolverRange(data, entries);
    if |xs| > 0 && IsBinary(NewResolver(data, entries)) {
      forall x, y | x in xs && y in xs
        ensures x == y
      {
      }
    }
  }

  /** A configured scale whose start and end differ is never binary. */
  lemma NotBinaryWithScale(data: CalendarData, entries: seq<RawEntry>)
    requires data.intensityScaleStart.Some? && data.intensityScaleEnd.Some?
    requires data.intensityScaleStart != data.intensityScaleEnd
    ensures !IsBinary(NewResolver(data, entries))
  {
  }
}
