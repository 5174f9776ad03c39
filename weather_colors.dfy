/**
 * Text, background and border classes for a temperature: four thresholds
 * split the scale into five bands, and each function picks its class by band.
 */
module WeatherColors {

  /** The band boundaries, in degrees Celsius, in increasing order. */
  const Thresholds: seq<real> := [0.0, 10.0, 20.0, 30.0]

  /** How many of the thresholds `t` has reached. */
  function Reached(thresholds: seq<real>, t: real): (n: nat)
    ensures n <= |thresholds|
  {
    if thresholds == [] then 0
    else (if thresholds[0] <= t then 1 else 0) + Reached(thresholds[1..], t)
  }

  /** The band of `t`: 0 below 0°, 1 from 0° to below 10°, … 4 from 30° up. */
  function Band(t: real): (b: nat)
    ensures b <= |Thresholds|
  {
    Reached(Thresholds, t)
  }

  /** A band is the half-open interval between two consecutive thresholds. */
  lemma BandBounds(t: real)
    ensures Band(t) > 0 ==> Thresholds[Band(t) - 1] <= t
    ensures Band(t) < |Thresholds| ==> t < Thresholds[Band(t)]
  {
    var a, b, c := Thresholds[1..], Thresholds[2..], Thresholds[3..];
    assert a == [10.0, 20.0, 30.0] && a[1..] == b;
    assert b == [20.0, 30.0] && b[1..] == c;
    assert c == [30.0] && c[1..] == [];
    assert Reached(c, t) == if 30.0 <= t then 1 else 0;
    assert Reached(b, t) == (if 20.0 <= t then 1 else 0) + Reached(c, t);
    assert Reached(a, t) == (if 10.0 <= t then 1 else 0) + Reached(b, t);
    assert Band(t) == (if 0.0 <= t then 1 else 0) + Reached(a, t);
  }

  /** A warmer temperature is never in a lower band. */
  lemma {:induction false} ReachedMonotone(thresholds: seq<real>, t1: real, t2: real)
    requires t1 <= t2
    ensures Reached(thresholds, t1) <= Reached(thresholds, t2)
  {
    if thresholds != [] {
      ReachedMonotone(thresholds[1..], t1, t2);
    }
  }

  lemma BandMonotone(t1: real, t2: real)
    requires t1 <= t2
    ensures Band(t1) <= Band(t2)
  {
    ReachedMonotone(Thresholds, t1, t2);
  }

  /** The text classes, band by band. */
  const TextColors: seq<string> := [
    "text-blue-600 dark:text-blue-400",
    "text-blue-500 dark:text-blue-400",
    "text-green-600 dark:text-green-400",
    "text-yellow-600 dark:text-yellow-400",
    "text-red-600 dark:text-red-400"]

  /** The background classes, band by band; the two bands below 10° share one. */
  const BgColors: seq<string> := [
    "bg-blue-50 dark:bg-blue-900/20",
    "bg-blue-50 dark:bg-blue-900/20",
    "bg-green-50 dark:bg-green-900/20",
    "bg-yellow-50 dark:bg-yellow-900/20",
    "bg-red-50 dark:bg-red-900/20"]

  /** The border classes, band by band; the two bands below 10° share one. */
  const BorderColors: seq<string> := [
    "border-blue-200 dark:border-blue-800",
    "border-blue-200 dark:border-blue-800",
    "border-green-200 dark:border-green-800",
    "border-yellow-200 dark:border-yellow-800",
    "border-red-200 dark:border-red-800"]

  /** `getTemperatureColor`. */
  function TemperatureColor(temp: real): (r: string)
    ensures r == TextColors[Band(temp)]
  {
    BandBounds(temp);
    if temp < 0.0 then "text-blue-600 dark:text-blue-400"
    else if temp < 10.0 then "text-blue-500 dark:text-blue-400"
    else if temp < 20.0 then "text-green-600 dark:text-green-400"
    else if temp < 30.0 then "text-yellow-600 dark:text-yellow-400"
    else "text-red-600 dark:text-red-400"
  }

  /** `getTemperatureBgColor`. */
  function TemperatureBgColor(temp: real): (r: string)
    ensures r == BgColors[Band(temp)]
  {
    BandBounds(temp);
    if temp < 0.0 then "bg-blue-50 dark:bg-blue-900/20"
    else if temp < 10.0 then "bg-blue-50 dark:bg-blue-900/20"
    else if temp < 20.0 then "bg-green-50 dark:bg-green-900/20"
    else if temp < 30.0 then "bg-yellow-50 dark:bg-yellow-900/20"
    else "bg-red-50 dark:bg-red-900/20"
  }

  /** `getTemperatureBorderColor`. */
  function TemperatureBorderColor(temp: real): (r: string)
    ensures r == BorderColors[Band(temp)]
  {
    BandBounds(temp);
    if temp < 0.0 then "border-blue-200 dark:border-blue-800"
    else if temp < 10.0 then "border-blue-200 dark:border-blue-800"
    else if temp < 20.0 then "border-green-200 dark:border-green-800"
    else if temp < 30.0 then "border-yellow-200 dark:border-yellow-800"
    else "border-red-200 dark:border-red-800"
  }

  /** Each of the three chains picks the class of the temperature's band. */
  lemma ColorsByBand(temp: real)
    ensures TemperatureColor(temp) == TextColors[Band(temp)]
    ensures TemperatureBgColor(temp) == BgColors[Band(temp)]
    ensures TemperatureBorderColor(temp) == BorderColors[Band(temp)]
  {
    BandBounds(temp);
  }

  /** Two temperatures get the same text class exactly when they are in the same band. */
  lemma TextColorSeparatesBands(t1: real, t2: real)
    ensures TemperatureColor(t1) == TemperatureColor(t2) <==> Band(t1) == Band(t2)
  {
    ColorsByBand(t1);
    ColorsByBand(t2);
  }

  /** The merged band of the background and border classes: everything below 10° is one. */
  function Shade(b: nat): nat {
    if b <= 1 then 1 else b
  }

  /**
   * Two temperatures get the same background class, and the same border
   * class, exactly when their bands are equal once the two bands below 10°
   * are merged.
   */
  lemma BgAndBorderMergeColdBands(t1: real, t2: real)
    ensures TemperatureBgColor(t1) == TemperatureBgColor(t2) <==> Shade(Band(t1)) == Shade(Band(t2))
    ensures TemperatureBorderColor(t1) == TemperatureBorderColor(t2) <==> Shade(Band(t1)) == Shade(Band(t2))
  {
    ColorsByBand(t1);
    ColorsByBand(t2);
  }
}
