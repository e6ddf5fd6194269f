/**
 * A calendar entry as the user supplies it, and the two getters of the
 * entry wrapper that apply the plugin's defaults: the effective intensity
 * and the palette name.
 */
module Entries {
  import opened Common

  /**
   * One entry: an ISO date string, and optional intensity, palette name
   * (later overwritten with a colour value) and display content.
   */
  datatype RawEntry = RawEntry(
    date: string,
    intensity: Option<real>,
    color: Option<string>,
    content: Option<string>)

  /** JavaScript truthiness of an optional number: defined and not zero. */
  predicate TruthyNumber(v: Option<real>) {
    v.Some? && v.value != 0.0
  }

  /** JavaScript truthiness of an optional string: defined and not empty. */
  predicate TruthyText(s: Option<string>) {
    s.Some? && s.value != ""
  }

  /**
   * The intensity getter: an entry without an intensity takes the configured
   * default when that is truthy and 0 otherwise; an entry with one keeps it
   * (a zero stays zero).
   */
  function Intensity(e: RawEntry, defaultIntensity: Option<real>): (r: real)
    ensures e.intensity.Some? ==> r == e.intensity.value
    ensures e.intensity.None? && defaultIntensity.Some? ==> r == defaultIntensity.value
    ensures e.intensity.None? && defaultIntensity.None? ==> r == 0.0
  {
    if e.intensity.None? then
      if TruthyNumber(defaultIntensity) then defaultIntensity.value else 0.0
    else if e.intensity.value == 0.0 then
      0.0
    else
      e.intensity.value
  }

  /**
   * An entry's effective intensity is non-zero exactly when its own
   * intensity is non-zero, or it has none and the default is non-zero.
   */
  lemma IntensityTruthy(e: RawEntry, defaultIntensity: Option<real>)
    ensures Intensity(e, defaultIntensity) != 0.0 <==>
      TruthyNumber(e.intensity) || (e.intensity.None? && TruthyNumber(defaultIntensity))
  {
  }

  /** The color getter: the entry's own palette name when truthy, else the default palette. */
  function PaletteName(e: RawEntry, defaultPalette: string): (r: string)
    ensures TruthyText(e.color) ==> r == e.color.value
    ensures !TruthyText(e.color) ==> r == defaultPalette
  {
    if TruthyText(e.color) then e.color.value else defaultPalette
  }
}
