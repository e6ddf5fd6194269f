/**
 * The Intensor: maps an entry's intensity to a colour of its palette. It
 * takes the range of the data (or the configured scale), builds for every
 * palette a linear function from that range onto the palette's indices, and
 * rounds up and clamps the function's value to pick a colour.
 *
 * Numbers are exact reals. A bound of the range can be infinite (the
 * minimum or maximum of no numbers at all), so bounds are extended reals.
 */
module Intensor {
  import opened Common
  import opened Entries

  /** A bound of the data range: a number, or one of the two infinities. */
  datatype Bound = NegInf | Finite(v: real) | PosInf

  /** The intensity settings: the configured scale start and end, when given. */
  datatype ScaleSettings = ScaleSettings(scaleStart: Option<real>, scaleEnd: Option<real>)

  /**
   * The colour options: palette names in their key order and the colours
   * of each palette. Object keys are listed once each and name exactly the
   * palettes.
   */
  datatype ColorOptions = ColorOptions(names: seq<string>, palettes: map<string, seq<string>>)

  ghost predicate ValidColors(c: ColorOptions) {
    && (forall i, j | 0 <= i < j < |c.names| :: c.names[i] != c.names[j])
    && (forall k :: k in c.names <==> k in c.palettes)
  }

  /** The fallback colour for an entry whose palette has no colour function. */
  const DefaultColor: string := "#e2e2e2"

  /** The palette name used when the first key is missing or empty. */
  const DefaultPaletteName: string := "default"

  /**
   * A linear colour function x * slope + offset, or the function built from
   * a one-point domain, whose slope and offset are not finite numbers.
   */
  datatype LinearFn = Linear(slope: real, offset: real) | NonFinite

  function Apply(f: LinearFn, x: real): real
    requires f.Linear?
  {
    x * f.slope + f.offset
  }

  /**
   * makeLinearFunc: the line through (x1, y1) and (x2, y2). When x1 == x2
   * the divisions are by zero and the function is not a finite line.
   */
  function MakeLinearFunc(x1: real, y1: real, x2: real, y2: real): (f: LinearFn)
    ensures f.Linear? <==> x1 != x2
    ensures f.Linear? ==> Apply(f, x1) == y1 && Apply(f, x2) == y2
  {
    if x1 == x2 then NonFinite
    else
      var f := Linear((y2 - y1) / (x2 - x1), ((x2 * y1) - (x1 * y2)) / (x2 - x1));
      LinePasses(x1, y1, x2, y2);
      f
  }

  /** The slope and offset of makeLinearFunc take x1 to y1 and x2 to y2. */
  lemma LinePasses(x1: real, y1: real, x2: real, y2: real)
    requires x1 != x2
    ensures x1 * ((y2 - y1) / (x2 - x1)) + ((x2 * y1) - (x1 * y2)) / (x2 - x1) == y1
    ensures x2 * ((y2 - y1) / (x2 - x1)) + ((x2 * y1) - (x1 * y2)) / (x2 - x1) == y2
  {
    var d := x2 - x1;
    assert x1 * ((y2 - y1) / d) == (x1 * (y2 - y1)) / d;
    assert x2 * ((y2 - y1) / d) == (x2 * (y2 - y1)) / d;
    assert (x1 * (y2 - y1)) / d + ((x2 * y1) - (x1 * y2)) / d == (y1 * d) / d;
    assert (x2 * (y2 - y1)) / d + ((x2 * y1) - (x1 * y2)) / d == (y2 * d) / d;
  }

  /** A line rising from (x1, y1) to (x2, y2) never goes down. */
  lemma LinearMonotone(x1: real, y1: real, x2: real, y2: real, a: real, b: real)
    requires x1 < x2 && y1 <= y2 && a <= b
    ensures Apply(MakeLinearFunc(x1, y1, x2, y2), a) <= Apply(MakeLinearFunc(x1, y1, x2, y2), b)
  {
    var s := (y2 - y1) / (x2 - x1);
    assert 0.0 <= s;
    assert b * s - a * s == (b - a) * s;
  }

  /** clamp: the input pulled into [min, max], on the integers it receives. */
  function Clamp(input: int, min: int, max: int): (r: int)
    ensures min <= max ==> min <= r <= max
    ensures min <= input <= max ==> r == input
    ensures input < min ==> r == min
    ensures min <= max && input > max ==> r == max
  {
    if input < min then min else if input > max then max else input
  }

  /** Clamping keeps the order of its inputs. */
  lemma ClampMonotone(a: int, b: int, min: int, max: int)
    requires a <= b && min <= max
    ensures Clamp(a, min, max) <= Clamp(b, min, max)
  {
  }

  /** Math.ceil: the least integer at or above x. */
  function Ceil(x: real): (r: int)
    ensures x <= r as real < x + 1.0
  {
    -((-x).Floor)
  }

  /** Rounding up keeps the order of its inputs. */
  lemma CeilMonotone(a: real, b: real)
    requires a <= b
    ensures Ceil(a) <= Ceil(b)
  {
  }

  /**
   * The effective intensities of the entries that are truthy (non-zero), in
   * order; these are what the data range is taken over.
   */
  function TruthyIntensities(entries: seq<RawEntry>, defaultIntensity: Option<real>): (r: seq<real>)
    ensures forall x | x in r :: x != 0.0
    ensures forall x :: x in r <==> exists e | e in entries :: Intensity(e, defaultIntensity) == x && x != 0.0
  {
    if |entries| == 0 then []
    else
      var rest := TruthyIntensities(entries[..|entries| - 1], defaultIntensity);
      var x := Intensity(entries[|entries| - 1], defaultIntensity);
      assert forall e | e in entries :: e in entries[..|entries| - 1] || e == entries[|entries| - 1];
      rest + (if x != 0.0 then [x] else [])
  }

  /** Math.min over the numbers: +Infinity for none, else the least of them. */
  function MinOf(xs: seq<real>): (r: Bound)
    ensures r == PosInf <==> |xs| == 0
    ensures r != NegInf
    ensures r.Finite? ==> r.v in xs && forall x | x in xs :: r.v <= x
  {
    if |xs| == 0 then PosInf
    else
      var rest := MinOf(xs[..|xs| - 1]);
      var x := xs[|xs| - 1];
      assert forall y | y in xs :: y in xs[..|xs| - 1] || y == x;
      if rest.Finite? && rest.v <= x then rest else Finite(x)
  }

  /** Math.max over the numbers: -Infinity for none, else the greatest of them. */
  function MaxOf(xs: seq<real>): (r: Bound)
    ensures r == NegInf <==> |xs| == 0
    ensures r != PosInf
    ensures r.Finite? ==> r.v in xs && forall x | x in xs :: x <= r.v
  {
    if |xs| == 0 then NegInf
    else
      var rest := MaxOf(xs[..|xs| - 1]);
      var x := xs[|xs| - 1];
      assert forall y | y in xs :: y in xs[..|xs| - 1] || y == x;
      if rest.Finite? && x <= rest.v then rest else Finite(x)
  }

  /** Adding one to a bound: infinities stay where they are. */
  function PlusOne(b: Bound): (r: Bound)
    ensures b.Finite? <==> r.Finite?
    ensures b.Finite? ==> r.v == b.v + 1.0
    ensures !b.Finite? ==> r == b
  {
    if b.Finite? then Finite(b.v + 1.0) else b
  }

  /**
   * The range getDataRange computes: from the least truthy intensity to the
   * greatest plus one, where a configured scale start replaces the lower
   * bound and a configured scale end e makes the upper bound e + 1.
   */
  function DataRange(entries: seq<RawEntry>, settings: ScaleSettings, defaultIntensity: Option<real>): (Bound, Bound) {
    var intensities := TruthyIntensities(entries, defaultIntensity);
    (if settings.scaleStart.Some? then Finite(settings.scaleStart.value) else MinOf(intensities),
     if settings.scaleEnd.Some? then Finite(settings.scaleEnd.value + 1.0) else PlusOne(MaxOf(intensities)))
  }

  /**
   * getDataRange, written as the source writes it: the pair [min, max + 1]
   * of the data, whose elements the configured scale then overwrites.
   */
  method GetDataRange(entries: seq<RawEntry>, settings: ScaleSettings, defaultIntensity: Option<real>)
    returns (result: seq<Bound>)
    ensures |result| == 2 && (result[0], result[1]) == DataRange(entries, settings, defaultIntensity)
  {
    var intensities := TruthyIntensities(entries, defaultIntensity);
    var maxInData := PlusOne(MaxOf(intensities));
    var minInData := MinOf(intensities);
    result := [minInData, maxInData];
    if settings.scaleStart.Some? {
      result := result[0 := Finite(settings.scaleStart.value)];
    }
    if settings.scaleEnd.Some? {
      result := result[1 := Finite(settings.scaleEnd.value + 1.0)];
    }
  }

  /**
   * Without a configured scale the lower bound is the least truthy effective
   * intensity of the entries, and the upper bound one more than the
   * greatest; with no truthy intensity they are +Infinity and -Infinity.
   */
  lemma DataRangeFromData(entries: seq<RawEntry>, defaultIntensity: Option<real>)
    ensures var (lo, hi) := DataRange(entries, ScaleSettings(None, None), defaultIntensity);
      && (lo.Finite? <==> exists e | e in entries :: Intensity(e, defaultIntensity) != 0.0)
      && (lo.Finite? ==> hi.Finite?)
      && (lo.Finite? ==> exists e | e in entries :: Intensity(e, defaultIntensity) == lo.v)
      && (lo.Finite? ==> exists e | e in entries :: Intensity(e, defaultIntensity) + 1.0 == hi.v)
      && (forall e | e in entries && Intensity(e, defaultIntensity) != 0.0 ::
            lo.Finite? && hi.Finite? && lo.v <= Intensity(e, defaultIntensity) < hi.v)
      && (!lo.Finite? ==> lo == PosInf && hi == NegInf)
  {
    var xs := TruthyIntensities(entries, defaultIntensity);
    if |xs| > 0 {
      assert xs[0] in xs;
    }
    forall e | e in entries && Intensity(e, defaultIntensity) != 0.0
      ensures Intensity(e, defaultIntensity) in xs
    {
    }
  }

  /**
   * A configured scale overrides the data on its own side, a start of 0
   * included: the lower bound is the start and the upper one more than the end.
   */
  lemma DataRangeFromScale(entries: seq<RawEntry>, settings: ScaleSettings, defaultIntensity: Option<real>)
    ensures settings.scaleStart.Some? ==> DataRange(entries, settings, defaultIntensity).0 == Finite(settings.scaleStart.value)
    ensures settings.scaleEnd.Some? ==> DataRange(entries, settings, defaultIntensity).1 == Finite(settings.scaleEnd.value + 1.0)
    ensures settings.scaleStart.None? ==> DataRange(entries, settings, defaultIntensity).0 == DataRange(entries, ScaleSettings(None, None), defaultIntensity).0
    ensures settings.scaleEnd.None? ==> DataRange(entries, settings, defaultIntensity).1 == DataRange(entries, ScaleSettings(None, None), defaultIntensity).1
  {
  }

  /** An entry whose effective intensity is zero leaves the data range as it was. */
  lemma {:induction false} DataRangeIgnoresZero(entries: seq<RawEntry>, e: RawEntry, settings: ScaleSettings, defaultIntensity: Option<real>)
    requires Intensity(e, defaultIntensity) == 0.0
    ensures DataRange(entries + [e], settings, defaultIntensity) == DataRange(entries, settings, defaultIntensity)
  {
    assert (entries + [e])[..|entries + [e]| - 1] == entries;
    assert TruthyIntensities(entries + [e], defaultIntensity) == TruthyIntensities(entries, defaultIntensity);
  }

  /**
   * makeLinearFunc(min, 0, max, n) for a palette of n colours over the data
   * range: the line taking the range's lower bound to 0 and its upper bound
   * to n, or a non-finite function when a bound is infinite or the two meet.
   */
  function PaletteFunction(range: (Bound, Bound), n: nat): (f: LinearFn)
    ensures f.Linear? <==> range.0.Finite? && range.1.Finite? && range.0.v != range.1.v
    ensures f.Linear? ==> Apply(f, range.0.v) == 0.0 && Apply(f, range.1.v) == n as real
  {
    if range.0.Finite? && range.1.Finite? then MakeLinearFunc(range.0.v, 0.0, range.1.v, 0.0 + n as real)
    else NonFinite
  }

  /** The colour functions the constructor builds: one per palette, over the same range. */
  function PaletteFunctions(colors: ColorOptions, range: (Bound, Bound)): (fs: map<string, LinearFn>)
    ensures fs.Keys == colors.palettes.Keys
  {
    map k | k in colors.palettes :: PaletteFunction(range, |colors.palettes[k]|)
  }

  /**
   * The palette index of an intensity x under function f for a palette of n
   * colours: the function's value rounded up and clamped to the palette.
   */
  function ColorIndex(f: LinearFn, n: nat, x: real): (i: int)
    requires f.Linear?
    ensures n > 0 ==> 0 <= i < n
  {
    Clamp(Ceil(Apply(f, x)), 0, n - 1)
  }

  /** Over a range rising from lo to hi, a greater intensity never gets a lower palette index. */
  lemma ColorIndexMonotone(lo: real, hi: real, n: nat, a: real, b: real)
    requires lo < hi && n > 0 && a <= b
    ensures var f := PaletteFunction((Finite(lo), Finite(hi)), n);
      ColorIndex(f, n, a) <= ColorIndex(f, n, b)
  {
    var f := PaletteFunction((Finite(lo), Finite(hi)), n);
    LinearMonotone(lo, 0.0, hi, 0.0 + n as real, a, b);
    CeilMonotone(Apply(f, a), Apply(f, b));
    ClampMonotone(Ceil(Apply(f, a)), Ceil(Apply(f, b)), 0, n - 1);
  }

  /** The lower bound of the range picks the first colour and the upper bound the last. */
  lemma ColorIndexAtBounds(lo: real, hi: real, n: nat)
    requires lo < hi && n > 0
    ensures var f := PaletteFunction((Finite(lo), Finite(hi)), n);
      ColorIndex(f, n, lo) == 0 && ColorIndex(f, n, hi) == n - 1
  {
  }

  /**
   * The palette name mapEntry looks up: the entry's color getter, or the
   * Intensor's default palette when that is empty.
   */
  function PaletteOf(e: RawEntry, storeDefault: string, defaultPalette: string): (name: string)
    ensures TruthyText(e.color) ==> name == e.color.value
    ensures !TruthyText(e.color) && storeDefault != "" ==> name == storeDefault
    ensures !TruthyText(e.color) && storeDefault == "" ==> name == defaultPalette
  {
    var name := PaletteName(e, storeDefault);
    if name != "" then name else defaultPalette
  }

  /**
   * What mapEntry returns for an entry: the default colour when its palette
   * has no colour function; otherwise the colour at the entry's index, or
   * nothing (JavaScript's undefined) when the palette is empty or its
   * function is not finite.
   */
  function MapColor(colors: ColorOptions, functions: map<string, LinearFn>, name: string, x: real): (r: Option<string>)
    requires functions.Keys == colors.palettes.Keys
    ensures name !in functions ==> r == Some(DefaultColor)
    ensures name in functions && r.Some? ==> r.value in colors.palettes[name]
    ensures name in functions ==> (r.None? <==> functions[name].NonFinite? || |colors.palettes[name]| == 0)
  {
    if name !in functions then Some(DefaultColor)
    else
      var values := colors.palettes[name];
      var f := functions[name];
      if f.NonFinite? || |values| == 0 then None
      else Some(values[ColorIndex(f, |values|, x)])
  }

  /** The palette index for intensity x over the range [lo, hi] and a palette of n colours. */
  function IndexIn(lo: real, hi: real, n: nat, x: real): int
    requires lo != hi
  {
    ColorIndex(PaletteFunction((Finite(lo), Finite(hi)), n), n, x)
  }

  /** Over a finite range [lo, hi] the colour function of n colours is (x - lo) * n / (hi - lo). */
  lemma PaletteLine(lo: real, hi: real, n: nat, x: real)
    requires lo < hi
    ensures PaletteFunction((Finite(lo), Finite(hi)), n).Linear?
    ensures Apply(PaletteFunction((Finite(lo), Finite(hi)), n), x) == (x - lo) * (n as real) / (hi - lo)
  {
    var f := PaletteFunction((Finite(lo), Finite(hi)), n);
    var d := hi - lo;
    assert f.slope == (n as real) / d;
    assert f.offset == (0.0 - lo * (n as real)) / d;
  }

  /** When (x - lo) * n / (hi - lo) lies in (k - 1, k], intensity x picks index k, clamped to the palette. */
  lemma IndexBand(lo: real, hi: real, n: nat, x: real, k: int)
    requires lo < hi && n > 0
    requires (k - 1) as real < (x - lo) * (n as real) / (hi - lo) <= k as real
    ensures IndexIn(lo, hi, n, x) == Clamp(k, 0, n - 1)
  {
    PaletteLine(lo, hi, n, x);
  }

  /** An intensity at or below the range's lower bound picks the first colour. */
  lemma IndexBelowRange(lo: real, hi: real, n: nat, x: real)
    requires lo < hi && n > 0 && x <= lo
    ensures IndexIn(lo, hi, n, x) == 0
  {
    PaletteLine(lo, hi, n, x);
    assert (x - lo) * (n as real) <= 0.0;
  }

  /**
   * An intensity above lo + (n - 2) / n of the range, the upper bound and
   * beyond included, picks the last colour.
   */
  lemma IndexTopBand(lo: real, hi: real, n: nat, x: real)
    requires lo < hi && n > 0 && x > lo + ((n - 2) as real) * (hi - lo) / (n as real)
    ensures IndexIn(lo, hi, n, x) == n - 1
  {
    PaletteLine(lo, hi, n, x);
    var d := hi - lo;
    assert (x - lo) * (n as real) > ((n - 2) as real) * d by {
      assert x - lo > ((n - 2) as real) * d / (n as real);
      assert (((n - 2) as real) * d / (n as real)) * (n as real) == ((n - 2) as real) * d;
    }
    assert (x - lo) * (n as real) / d > ((n - 2) as real) * d / d;
    assert ((n - 2) as real) * d / d == (n - 2) as real;
  }

  /**
   * A range w units wide over a palette of m * w colours: the intensity j
   * units above the lower bound picks colour m * j.
   */
  lemma IndexSteps(lo: real, w: nat, m: nat, j: nat)
    requires 0 < w && 0 < m && j < w
    ensures IndexIn(lo, lo + w as real, m * w, lo + j as real) == m * j
  {
    var n := m * w;
    assert (j as real) * (n as real) / (w as real) == (m * j) as real;
    IndexBand(lo, lo + w as real, n, lo + j as real, m * j);
  }

  /**
   * The regular series of the tests: intensities 1 to 5 span [1, 6], and
   * intensity j picks colour j of a five-colour palette and colour 2j - 1 of
   * a ten-colour one (counting from 1).
   */
  lemma RegularSeriesVectors(j: nat)
    requires 1 <= j <= 5
    ensures IndexIn(1.0, 6.0, 5, j as real) == j - 1
    ensures IndexIn(1.0, 6.0, 10, j as real) == 2 * (j - 1)
  {
    IndexSteps(1.0, 5, 1, j - 1);
    IndexSteps(1.0, 5, 2, j - 1);
  }

  /**
   * The binary scale 0 to 0, the range [0, 1]: positive whole intensities
   * pick the top colour, zero (a missing intensity) and negative ones the
   * bottom colour.
   */
  lemma BinaryScaleVectors(x: real)
    ensures x >= 1.0 ==> IndexIn(0.0, 1.0, 5, x) == 4
    ensures x <= 0.0 ==> IndexIn(0.0, 1.0, 5, x) == 0
  {
    if x >= 1.0 {
      IndexTopBand(0.0, 1.0, 5, x);
    } else if x <= 0.0 {
      IndexBelowRange(0.0, 1.0, 5, x);
    }
  }

  /**
   * Values out of range without a scale: the data's own range is
   * [-300, 501], so 1 to 5 crowd into the middle colour while -300 and 500
   * take the ends.
   */
  lemma WideDataVectors(x: real)
    ensures 1.0 <= x <= 5.0 ==> IndexIn(-300.0, 501.0, 5, x) == 2
    ensures x <= -300.0 ==> IndexIn(-300.0, 501.0, 5, x) == 0
    ensures x >= 500.0 ==> IndexIn(-300.0, 501.0, 5, x) == 4
  {
    if 1.0 <= x <= 5.0 {
      IndexBand(-300.0, 501.0, 5, x, 2);
    } else if x <= -300.0 {
      IndexBelowRange(-300.0, 501.0, 5, x);
    } else if x >= 500.0 {
      IndexTopBand(-300.0, 501.0, 5, x);
    }
  }

  /** Values out of range with the scale 1 to 5, the range [1, 6]: the outliers are clamped to the ends. */
  lemma ClampedScaleVectors(x: real)
    ensures x <= 1.0 ==> IndexIn(1.0, 6.0, 5, x) == 0
    ensures x >= 5.0 ==> IndexIn(1.0, 6.0, 5, x) == 4
  {
    if x <= 1.0 {
      IndexBelowRange(1.0, 6.0, 5, x);
    } else if x >= 5.0 {
      IndexTopBand(1.0, 6.0, 5, x);
    }
  }

  /** The scale 0 to 5, the range [0, 6]: 0 picks the first colour, 1 the second, 2 the third, and 4 and up the last. */
  lemma ZeroStartVectors(x: real)
    ensures x <= 0.0 ==> IndexIn(0.0, 6.0, 5, x) == 0
    ensures x == 1.0 ==> IndexIn(0.0, 6.0, 5, x) == 1
    ensures x == 2.0 ==> IndexIn(0.0, 6.0, 5, x) == 2
    ensures x >= 4.0 ==> IndexIn(0.0, 6.0, 5, x) == 4
  {
    if x <= 0.0 {
      IndexBelowRange(0.0, 6.0, 5, x);
    } else if x == 1.0 {
      IndexBand(0.0, 6.0, 5, x, 1);
    } else if x == 2.0 {
      IndexBand(0.0, 6.0, 5, x, 2);
    } else if x >= 4.0 {
      IndexTopBand(0.0, 6.0, 5, x);
    }
  }

  /** A narrow band of values on the scale 1 to 100, the range [1, 101]: 15 to 18 share the second colour, 99 takes the last. */
  lemma NarrowRangeVectors(x: real)
    ensures 15.0 <= x <= 18.0 ==> IndexIn(1.0, 101.0, 5, x) == 1
    ensures x >= 99.0 ==> IndexIn(1.0, 101.0, 5, x) == 4
  {
    if 15.0 <= x <= 18.0 {
      IndexBand(1.0, 101.0, 5, x, 1);
    } else if x >= 99.0 {
      IndexTopBand(1.0, 101.0, 5, x);
    }
  }

  /** The default palette of a list of palette names: the first, unless there is none or it is empty. */
  function FirstPalette(names: seq<string>): (r: string)
    ensures r != ""
    ensures |names| > 0 && names[0] != "" ==> r == names[0]
    ensures r != DefaultPaletteName ==> r in names
  {
    if |names| > 0 && names[0] != "" then names[0] else DefaultPaletteName
  }

  /**
   * The colour mapEntry gives an entry under the colour options and their
   * functions: the default colour when its palette name has no function,
   * else a colour of that palette or nothing.
   */
  function ColorOf(colors: ColorOptions, functions: map<string, LinearFn>, storeDefault: string,
                   defaultIntensity: Option<real>, e: RawEntry): (r: Option<string>)
    requires functions.Keys == colors.palettes.Keys
    ensures var name := PaletteOf(e, storeDefault, FirstPalette(colors.names));
      && (name !in functions ==> r == Some(DefaultColor))
      && (name in functions && r.Some? ==> r.value in colors.palettes[name])
  {
    MapColor(colors, functions, PaletteOf(e, storeDefault, FirstPalette(colors.names)), Intensity(e, defaultIntensity))
  }

  /** The colour options of the intensity tests: palette A of five colours and palette B of ten. */
  function TestColors(): ColorOptions {
    ColorOptions(["paletteA", "paletteB"],
      map["paletteA" := ["#111", "#222", "#333", "#444", "#555"],
          "paletteB" := ["#111", "#222", "#333", "#444", "#555", "#666", "#777", "#888", "#999", "#aaa"]])
  }

  /** Palette A of the test colours has five colours, and its colour function is built for five. */
  lemma TestPaletteA(range: (Bound, Bound))
    ensures "paletteA" in TestColors().palettes && TestColors().palettes["paletteA"] == ["#111", "#222", "#333", "#444", "#555"]
    ensures "paletteA" in PaletteFunctions(TestColors(), range)
    ensures PaletteFunctions(TestColors(), range)["paletteA"] == PaletteFunction(range, 5)
  {
    assert "paletteA" in TestColors().palettes;
  }

  /**
   * The scale-start-of-zero test from end to end: whatever the entries, with
   * the scale 0 to 5 and palette A as the stored default, an entry without a
   * colour of its own gets '#111' for intensity 0, '#222' for 1, '#333' for 2
   * and '#555' for 4 and beyond.
   */
  lemma ZeroStartColors(entries: seq<RawEntry>, e: RawEntry)
    requires e.color.None? && e.intensity.Some?
    ensures var range := DataRange(entries, ScaleSettings(Some(0.0), Some(5.0)), None);
      var c := ColorOf(TestColors(), PaletteFunctions(TestColors(), range), "paletteA", None, e);
      var x := e.intensity.value;
      && (x == 0.0 ==> c == Some("#111"))
      && (x == 1.0 ==> c == Some("#222"))
      && (x == 2.0 ==> c == Some("#333"))
      && (x >= 4.0 ==> c == Some("#555"))
  {
    var settings := ScaleSettings(Some(0.0), Some(5.0));
    DataRangeFromScale(entries, settings, None);
    var range := DataRange(entries, settings, None);
    assert range == (Finite(0.0), Finite(6.0));
    TestPaletteA(range);
    var x := e.intensity.value;
    var c := ColorOf(TestColors(), PaletteFunctions(TestColors(), range), "paletteA", None, e);
    assert c == Some(["#111", "#222", "#333", "#444", "#555"][IndexIn(0.0, 6.0, 5, x)]);
    ZeroStartVectors(x);
  }

  /** An Intensor: the colour options, their key names, and a colour function per palette. */
  class Intensor {
    var colors: ColorOptions
    var colorNames: seq<string>
    var colorFunctions: map<string, LinearFn>

    ghost predicate Valid()
      reads this
    {
      && ValidColors(colors)
      && colorNames == colors.names
      && |colorNames| > 0
      && colorFunctions.Keys == colors.palettes.Keys
    }

    /**
     * The constructor, past its check for colour options: it takes the data
     * range and, key by key, sets that palette's colour function.
     */
    constructor(settings: ScaleSettings, colors: ColorOptions, entries: seq<RawEntry>, defaultIntensity: Option<real>)
      requires ValidColors(colors) && |colors.names| > 0
      ensures Valid()
      ensures this.colors == colors
      ensures colorFunctions == PaletteFunctions(colors, DataRange(entries, settings, defaultIntensity))
    {
      this.colors := colors;
      this.colorNames := colors.names;
      var range := GetDataRange(entries, settings, defaultIntensity);
      var minimumIntensity, maximumIntensity := range[0], range[1];
      var functions: map<string, LinearFn> := map[];
      for i := 0 to |colors.names|
        invariant functions == map k | k in colors.names[..i] :: PaletteFunction((minimumIntensity, maximumIntensity), |colors.palettes[k]|)
      {
        var key := colors.names[i];
        var colorValues := colors.palettes[key];
        functions := functions[key := PaletteFunction((minimumIntensity, maximumIntensity), |colorValues|)];
      }
      this.colorFunctions := functions;
    }

    /** getDefaultPalette: the first palette name, or "default" when it is empty. */
    function GetDefaultPalette(): (r: string)
      reads this
      ensures r == FirstPalette(colorNames)
    {
      FirstPalette(colorNames)
    }

    /**
     * mapEntry: the colour of an entry, looked up under its palette name
     * with its effective intensity.
     */
    function MapEntry(e: RawEntry, storeDefault: string, defaultIntensity: Option<real>): (r: Option<string>)
      reads this
      requires Valid()
      ensures r == ColorOf(colors, colorFunctions, storeDefault, defaultIntensity, e)
    {
      MapColor(colors, colorFunctions, PaletteOf(e, storeDefault, GetDefaultPalette()), Intensity(e, defaultIntensity))
    }
  }

  /**
   * new Intensor(...): throws when the colour options have no keys, else
   * builds the Intensor.
   */
  method NewIntensor(settings: ScaleSettings, colors: ColorOptions, entries: seq<RawEntry>, defaultIntensity: Option<real>)
    returns (r: Result<Intensor>)
    requires ValidColors(colors)
    ensures r.Fail? <==> |colors.names| == 0
    ensures r.Fail? ==> r.error == NoColorOptions
    ensures r.Ok? ==> fresh(r.value) && r.value.Valid() && r.value.colors == colors
    ensures r.Ok? ==> r.value.colorFunctions == PaletteFunctions(colors, DataRange(entries, settings, defaultIntensity))
  {
    if |colors.names| == 0 {
      return Fail(NoColorOptions);
    }
    var intensor := new Intensor(settings, colors, entries, defaultIntensity);
    r := Ok(intensor);
  }
}
