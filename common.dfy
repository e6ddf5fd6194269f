/**
 * Shared value types: an optional value (JavaScript's `undefined` versus a
 * value), an outcome that is either a value or a thrown `Error`, and
 * the settings that the plugin keeps in its global settings store, passed
 * explicitly here.
 */
module Common {

  /** `None` stands for JavaScript's `undefined`. */
  datatype Option<+T> = None | Some(value: T)

  /** The errors the core throws, one per `throw new Error(...)` site. */
  datatype Error =
    | NotImplemented     // an abstract Layout operation
    | TooManyIterations  // the box loop guard of the rolling layout
    | NoColorOptions     // an Intensor built without colour options

  /** The message text each error is thrown with. */
  function Message(e: Error): (m: string)
    ensures |m| > 0
  {
    match e
    case NotImplemented => "Not Implemented"
    case TooManyIterations => "generateBoxes check thrown. Too many iterations"
    case NoColorOptions => "Misconfigured Intensor; no ColorOptions passed"
  }

  /** `Fail(error)` stands for `throw new Error(Message(error))`. */
  datatype Result<+T> = Ok(value: T) | Fail(error: Error)

  /**
   * The values the core reads from the settings store during one render pass:
   * the first and last weekday of a grid column (0 = Sunday .. 6 = Saturday),
   * the palette used when an entry names none, and the intensity used when an
   * entry has none.
   */
  datatype Settings = Settings(
    weekStart: int,
    weekEnd: int,
    defaultPalette: string,
    defaultIntensity: Option<real>)

  /** Week days are the numbers 0 (Sunday) through 6 (Saturday). */
  predicate IsWeekDay(d: int) {
    0 <= d <= 6
  }

  /**
   * Array.prototype.filter: the elements of xs that satisfy p, in their
   * original order.
   */
  function Filter<T(!new)>(xs: seq<T>, p: T -> bool): (r: seq<T>)
    ensures |r| <= |xs|
    ensures forall x :: x in r <==> x in xs && p(x)
  {
    if |xs| == 0 then [] else Filter(xs[..|xs| - 1], p) + (if p(xs[|xs| - 1]) then [xs[|xs| - 1]] else [])
  }

  /** Filtering keeps the order: an element kept later in xs comes later in the result. */
  lemma {:induction false} FilterAppend<T(!new)>(xs: seq<T>, ys: seq<T>, p: T -> bool)
    ensures Filter(xs + ys, p) == Filter(xs, p) + Filter(ys, p)
    decreases |ys|
  {
    if |ys| == 0 {
      assert xs + ys == xs;
    } else {
      var ys' := ys[..|ys| - 1];
      var last := ys[|ys| - 1];
      var tail := if p(last) then [last] else [];
      FilterAppend(xs, ys', p);
      assert (xs + ys)[..|xs + ys| - 1] == xs + ys';
      assert (xs + ys)[|xs + ys| - 1] == last;
      assert Filter(xs + ys, p) == Filter(xs + ys', p) + tail;
      assert Filter(ys, p) == Filter(ys', p) + tail;
    }
  }

  /** Two tests that agree on every element of a list filter it alike. */
  lemma {:induction false} FilterCongruent<T(!new)>(xs: seq<T>, p: T -> bool, q: T -> bool)
    requires forall i | 0 <= i < |xs| :: p(xs[i]) == q(xs[i])
    ensures Filter(xs, p) == Filter(xs, q)
  {
    if |xs| > 0 {
      FilterCongruent(xs[..|xs| - 1], p, q);
    }
  }

  /** Filtering a list whose elements all pass keeps the list. */
  lemma {:induction false} FilterAll<T(!new)>(xs: seq<T>, p: T -> bool)
    requires forall i | 0 <= i < |xs| :: p(xs[i])
    ensures Filter(xs, p) == xs
  {
    if |xs| > 0 {
      FilterAll(xs[..|xs| - 1], p);
      assert xs[..|xs| - 1] + [xs[|xs| - 1]] == xs;
    }
  }

  /** Filtering a list none of whose elements passes gives the empty list. */
  lemma {:induction false} FilterNone<T(!new)>(xs: seq<T>, p: T -> bool)
    requires forall i | 0 <= i < |xs| :: !p(xs[i])
    ensures Filter(xs, p) == []
  {
    if |xs| > 0 {
      FilterNone(xs[..|xs| - 1], p);
    }
  }

  /** xs rotated left by k places: the part from index k, then the part before it. */
  function Rotate<T>(xs: seq<T>, k: int): (r: seq<T>)
    requires 0 <= k <= |xs|
    ensures |r| == |xs|
  {
    xs[k..] + xs[..k]
  }

  /** Rotating only reorders: the rotated list holds the same elements, as often. */
  lemma RotatePermutes<T>(xs: seq<T>, k: int)
    requires 0 <= k <= |xs|
    ensures multiset(Rotate(xs, k)) == multiset(xs)
  {
    assert xs == xs[..k] + xs[k..];
  }

  /** Element i of xs rotated left by k places is element k + i of xs, counted round the end. */
  lemma RotateAt<T>(xs: seq<T>, k: int, i: int)
    requires 0 <= k <= |xs| && 0 <= i < |xs|
    ensures i < |xs| - k ==> Rotate(xs, k)[i] == xs[k + i]
    ensures |xs| - k <= i ==> Rotate(xs, k)[i] == xs[i - (|xs| - k)]
  {
  }
}
