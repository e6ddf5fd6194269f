/**
 * The logic of rendering a heatmap calendar: choose the layout, keep the
 * entries it shows, build the Intensor from them, generate the boxes, then
 * attach each entry to the first box of its date and replace the entry's
 * palette name by its colour.
 */
module HeatmapCalendar {
  import opened Common
  import opened Entries
  import opened Boxes
  import opened Intensor
  import Layout
  import YearLayout
  import RollingLayout

  /** The calendar's own settings: year, rolling flag, colour options, entries and scale. */
  datatype Config = Config(
    year: Option<int>,
    rolling: bool,
    colors: ColorOptions,
    entries: seq<RawEntry>,
    scale: ScaleSettings)

  /** What render produces: the boxes with their entries, and the entries with their colours. */
  datatype Rendered = Rendered(boxes: seq<Box>, entries: seq<RawEntry>)

  /** The layout render uses: rolling when the flag is set, else the configured year. */
  function ChooseLayout(config: Config): (layout: Layout.LayoutKind)
    requires config.rolling || config.year.Some?
    ensures layout.RollingKind? <==> config.rolling
    ensures !config.rolling ==> layout == Layout.YearKind(config.year.value)
    ensures !layout.BaseLayout?
  {
    if config.rolling then Layout.RollingKind else Layout.YearKind(config.year.value)
  }

  /** The boxes a layout generates. */
  function ViewBoxes(layout: Layout.LayoutKind, settings: Settings, clock: int): seq<Box>
    requires IsWeekDay(settings.weekStart) && IsWeekDay(settings.weekEnd)
    requires !layout.BaseLayout?
  {
    match layout
    case YearKind(year) => YearLayout.YearBoxes(year, settings.weekStart)
    case RollingKind => RollingLayout.RollingBoxes(clock, settings.weekStart, settings.weekEnd)
  }

  /** Array.prototype.find on dates, from position i: the first box from i on with the given date. */
  function FindDateFrom(boxes: seq<Box>, date: string, i: nat): (r: Option<nat>)
    requires i <= |boxes|
    ensures r.Some? ==> (i <= r.value < |boxes| && boxes[r.value].date == date
      && forall j | i <= j < r.value :: boxes[j].date != date)
    ensures r.None? ==> forall j | i <= j < |boxes| :: boxes[j].date != date
    decreases |boxes| - i
  {
    if i == |boxes| then None
    else if boxes[i].date == date then Some(i)
    else FindDateFrom(boxes, date, i + 1)
  }

  /** boxes.find(b => b.date === date), as the position of the box found. */
  function FindDate(boxes: seq<Box>, date: string): (r: Option<nat>)
    ensures r.Some? ==> (r.value < |boxes| && boxes[r.value].date == date
      && forall j | 0 <= j < r.value :: boxes[j].date != date)
    ensures r.None? ==> forall j | 0 <= j < |boxes| :: boxes[j].date != date
  {
    FindDateFrom(boxes, date, 0)
  }

  /** Boxes with the same dates, position by position. */
  predicate SameDates(a: seq<Box>, b: seq<Box>) {
    |a| == |b| && forall i | 0 <= i < |a| :: a[i].date == b[i].date
  }

  /** The search for a date only looks at dates. */
  lemma FindDateSameDates(a: seq<Box>, b: seq<Box>, date: string)
    requires SameDates(a, b)
    ensures FindDate(a, date) == FindDate(b, date)
  {
    var ra, rb := FindDate(a, date), FindDate(b, date);
    if ra.Some? {
      assert b[ra.value].date == date;
    }
    if rb.Some? {
      assert a[rb.value].date == date;
    }
  }

  /** One step of the matching loop: the entry goes into the first box of its date, if any. */
  function Attach(boxes: seq<Box>, e: RawEntry): (r: seq<Box>)
    ensures SameDates(r, boxes)
  {
    match FindDate(boxes, e.date)
    case Some(j) => boxes[j := Box(boxes[j].date, Some(e))]
    case None => boxes
  }

  /** The matching loop over the entries, in their order. */
  function AttachAll(boxes: seq<Box>, es: seq<RawEntry>): (r: seq<Box>)
    ensures SameDates(r, boxes)
  {
    if |es| == 0 then boxes else Attach(AttachAll(boxes, es[..|es| - 1]), es[|es| - 1])
  }

  /**
   * A box that no entry's date finds keeps what it held: matching only ever
   * fills the first box of an entry's date.
   */
  lemma {:induction false} AttachUnmatched(boxes: seq<Box>, es: seq<RawEntry>, i: nat)
    requires i < |boxes|
    requires forall e | e in es :: FindDate(boxes, e.date) != Some(i)
    ensures AttachAll(boxes, es)[i] == boxes[i]
  {
    if |es| > 0 {
      var prev := AttachAll(boxes, es[..|es| - 1]);
      assert forall e | e in es[..|es| - 1] :: e in es;
      AttachUnmatched(boxes, es[..|es| - 1], i);
      FindDateSameDates(prev, boxes, es[|es| - 1].date);
    }
  }

  /**
   * When several entries share a date, the box of that date ends up holding
   * the last of them: the entry at position k, if no later entry has its date.
   */
  lemma {:induction false} AttachLastWins(boxes: seq<Box>, es: seq<RawEntry>, k: nat, j: nat)
    requires k < |es| && FindDate(boxes, es[k].date) == Some(j)
    requires forall l | k < l < |es| :: es[l].date != es[k].date
    ensures j < |boxes| && AttachAll(boxes, es)[j] == Box(boxes[j].date, Some(es[k]))
  {
    var n := |es| - 1;
    var prev := AttachAll(boxes, es[..n]);
    FindDateSameDates(prev, boxes, es[n].date);
    if k < n {
      AttachLastWins(boxes, es[..n], k, j);
      assert es[n].date != es[k].date;
    }
  }

  /**
   * e.color = intensor.mapEntry(e) for every entry, in order, with the
   * colour options and the colour functions of the Intensor.
   */
  function Paint(colors: ColorOptions, functions: map<string, LinearFn>, settings: Settings, es: seq<RawEntry>): (r: seq<RawEntry>)
    requires functions.Keys == colors.palettes.Keys
    ensures |r| == |es|
    ensures forall i | 0 <= i < |es| ::
      r[i] == es[i].(color := ColorOf(colors, functions, settings.defaultPalette, settings.defaultIntensity, es[i]))
  {
    if |es| == 0 then []
    else
      Paint(colors, functions, settings, es[..|es| - 1])
      + [es[|es| - 1].(color := ColorOf(colors, functions, settings.defaultPalette, settings.defaultIntensity, es[|es| - 1]))]
  }

  /**
   * The calEntries.forEach loop: for each entry, find the first box of its
   * date and attach the entry there, and overwrite the entry's colour with
   * the one the Intensor maps it to. The box holds the same entry object
   * whose colour is overwritten, so the attached entry carries its colour.
   */
  method MatchEntries(boxes0: seq<Box>, calEntries: seq<RawEntry>, intensor: Intensor, settings: Settings)
    returns (boxes: seq<Box>, entries: seq<RawEntry>)
    requires intensor.Valid()
    ensures entries == Paint(intensor.colors, intensor.colorFunctions, settings, calEntries)
    ensures boxes == AttachAll(boxes0, entries)
  {
    ghost var painted := Paint(intensor.colors, intensor.colorFunctions, settings, calEntries);
    boxes := boxes0;
    entries := calEntries;
    for i := 0 to |calEntries|
      invariant |entries| == |calEntries|
      invariant forall j | 0 <= j < i :: entries[j] == painted[j]
      invariant forall j | i <= j < |calEntries| :: entries[j] == calEntries[j]
      invariant boxes == AttachAll(boxes0, painted[..i])
    {
      var colored;
      boxes, colored := MatchEntry(boxes, calEntries[i], intensor, settings);
      AttachStep(boxes0, painted, i);
      entries := entries[i := colored];
    }
    assert painted[..|calEntries|] == painted;
  }

  /**
   * The body of the loop for one entry e: attach it to the first box of its
   * date, then set its colour to the one the Intensor maps it to.
   */
  method MatchEntry(boxes: seq<Box>, e: RawEntry, intensor: Intensor, settings: Settings) returns (r: seq<Box>, colored: RawEntry)
    requires intensor.Valid()
    ensures colored == e.(color := ColorOf(intensor.colors, intensor.colorFunctions, settings.defaultPalette, settings.defaultIntensity, e))
    ensures r == Attach(boxes, colored)
  {
    var color := intensor.MapEntry(e, settings.defaultPalette, settings.defaultIntensity);
    colored := e.(color := color);
    r := AttachEntry(boxes, colored);
  }

  /**
   * let match = boxes.find(b => b.date === e.date); if (match) match.entry = e:
   * the entry goes into the first box of its date, and no box changes when
   * there is none.
   */
  method AttachEntry(boxes: seq<Box>, e: RawEntry) returns (r: seq<Box>)
    ensures r == Attach(boxes, e)
  {
    var found := FindDate(boxes, e.date);
    r := boxes;
    if found.Some? {
      r := r[found.value := Box(r[found.value].date, Some(e))];
    }
  }

  /** The first i + 1 entries attach as the first i do, then entry i. */
  lemma AttachStep(boxes: seq<Box>, es: seq<RawEntry>, i: nat)
    requires i < |es|
    ensures AttachAll(boxes, es[..i + 1]) == Attach(AttachAll(boxes, es[..i]), es[i])
  {
    assert es[..i + 1][..i] == es[..i];
  }

  /**
   * render, before the DOM is built: throws when the colour options are
   * empty; otherwise the boxes of the chosen layout with the entries it
   * shows attached, and those entries with their colours. The Intensor's
   * range is taken over the shown entries only.
   */
  method Render(config: Config, settings: Settings, clock: int) returns (r: Result<Rendered>)
    requires config.rolling || config.year.Some?
    requires IsWeekDay(settings.weekStart) && IsWeekDay(settings.weekEnd)
    requires ValidColors(config.colors)
    ensures r.Fail? <==> |config.colors.names| == 0
    ensures r.Fail? ==> r.error == NoColorOptions
    ensures r.Ok? ==>
      var layout := ChooseLayout(config);
      var shown := Layout.FilterEntries(layout, config.entries, settings, clock).value;
      var functions := PaletteFunctions(config.colors, DataRange(shown, config.scale, settings.defaultIntensity));
      && r.value.entries == Paint(config.colors, functions, settings, shown)
      && r.value.boxes == AttachAll(ViewBoxes(layout, settings, clock), r.value.entries)
  {
    var layout := ChooseLayout(config);
    var filtered := Layout.FilterEntries(layout, config.entries, settings, clock);
    var calEntries := filtered.value;
    var made := NewIntensor(config.scale, config.colors, calEntries, settings.defaultIntensity);
    if made.Fail? {
      return Fail(made.error);
    }
    var intensor := made.value;
    var generated := Layout.GenerateBoxes(layout, settings, clock);
    var boxes, entries := MatchEntries(generated.value, calEntries, intensor, settings);
    r := Ok(Rendered(boxes, entries));
  }
}
