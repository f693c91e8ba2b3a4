/** The small display rules of the weather card
    (src/components/WeatherCard.tsx): the air-quality label, the wind and
    precipitation strings, and the forecast-mode toggle. */
module WeatherCard {
  import opened Wrappers
  import opened Text

  // ---------------------------------------------------------------------
  // Air quality

  const AirQualityLabels: seq<string> :=
    ["Good", "Moderate", "Unhealthy for Sensitive Groups", "Unhealthy", "Very Unhealthy", "Hazardous"]

  const UnknownLabel: string := "Unknown"

  /** `getAirQuality`: the US EPA index 1..6 names a band; anything else,
      including the API default 0, is unknown. */
  function GetAirQuality(aqi: real): (text: string)
    ensures text != UnknownLabel <==> aqi in {1.0, 2.0, 3.0, 4.0, 5.0, 6.0}
  {
    if aqi == 1.0 then "Good"
    else if aqi == 2.0 then "Moderate"
    else if aqi == 3.0 then "Unhealthy for Sensitive Groups"
    else if aqi == 4.0 then "Unhealthy"
    else if aqi == 5.0 then "Very Unhealthy"
    else if aqi == 6.0 then "Hazardous"
    else UnknownLabel
  }

  /** The inverse: the index a label names, if any. */
  function AirQualityIndex(text: string): (r: Option<nat>)
    ensures r.Some? ==> 1 <= r.value <= 6 && AirQualityLabels[r.value - 1] == text
    ensures r.None? ==> text !in AirQualityLabels
  {
    if text == "Good" then Some(1)
    else if text == "Moderate" then Some(2)
    else if text == "Unhealthy for Sensitive Groups" then Some(3)
    else if text == "Unhealthy" then Some(4)
    else if text == "Very Unhealthy" then Some(5)
    else if text == "Hazardous" then Some(6)
    else None
  }

  /** The six bands have six different labels, in the order of the index,
      and the label gives the index back. */
  lemma AirQualityRoundTrip(n: nat)
    requires 1 <= n <= 6
    ensures GetAirQuality(n as real) == AirQualityLabels[n - 1]
    ensures AirQualityIndex(GetAirQuality(n as real)) == Some(n)
  {
  }

  lemma AirQualityDefaultIsUnknown()
    ensures GetAirQuality(0.0) == UnknownLabel
    ensures AirQualityIndex(UnknownLabel).None?
  {
  }

  // ---------------------------------------------------------------------
  // Wind and precipitation

  datatype Unit = Celsius | Fahrenheit

  const KmhSuffix: string := " km/h"
  const MphSuffix: string := " mph"
  const MmSuffix: string := " mm"
  const InchSuffix: string := " in"

  /** `getWindSpeed` for a speed the API layer has already rounded.
      `toMph` stands for `Math.round(speedKph * 0.621371)`. */
  function GetWindSpeed(unit: Unit, speedKph: int, toMph: int -> int): (r: string)
    ensures |r| > 4
    ensures unit == Celsius ==> r[|r| - 5..] == KmhSuffix && ToNumber(r[..|r| - 5]) == Int(speedKph)
    ensures unit == Fahrenheit ==> r[|r| - 4..] == MphSuffix && ToNumber(r[..|r| - 4]) == Int(toMph(speedKph))
  {
    var n := if unit == Celsius then speedKph else toMph(speedKph);
    var suffix := if unit == Celsius then KmhSuffix else MphSuffix;
    IntToStringRoundTrip(n);
    var r := IntToString(n) + suffix;
    assert r[..|r| - |suffix|] == IntToString(n);
    assert r[|r| - |suffix|..] == suffix;
    r
  }

  /** `getPrecipitation`. `show` is JavaScript's number-to-text conversion
      and `fixed2` stands for `(precipMm * 0.0394).toFixed(2)`. */
  function GetPrecipitation(unit: Unit, precipMm: real, show: real -> string, fixed2: real -> string): (r: string)
    ensures unit == Celsius ==> |r| >= 3 && r[..|r| - 3] == show(precipMm) && r[|r| - 3..] == MmSuffix
    ensures unit == Fahrenheit ==> |r| >= 3 && r[..|r| - 3] == fixed2(precipMm) && r[|r| - 3..] == InchSuffix
  {
    var body := if unit == Celsius then show(precipMm) else fixed2(precipMm);
    var suffix := if unit == Celsius then MmSuffix else InchSuffix;
    var r := body + suffix;
    assert r[..|r| - 3] == body && r[|r| - 3..] == suffix;
    r
  }

  // ---------------------------------------------------------------------
  // Forecast toggle

  datatype ForecastMode = Hourly | Daily {
    function Other(): (m: ForecastMode)
      ensures m != this
    {
      if this == Hourly then Daily else Hourly
    }

    function Name(): string {
      if this == Hourly then "hourly" else "daily"
    }

    /** The short name of the span a mode covers. */
    function Span(): string {
      if this == Hourly then "24H" else "7D"
    }
  }

  /** The toggle button's text: '7D' in hourly mode, '24H' in daily mode. */
  function ToggleLabel(mode: ForecastMode): (text: string)
    ensures text == mode.Other().Span()
    ensures mode == Hourly ==> text == "7D"
    ensures mode == Daily ==> text == "24H"
  {
    if mode == Hourly then "7D" else "24H"
  }

  /** The toggle's tooltip always offers the mode not shown. */
  function ToggleTooltip(mode: ForecastMode): (tip: string)
    ensures tip == "Switch to " + mode.Other().Name() + " forecast"
  {
    "Switch to " + (if mode == Hourly then "daily" else "hourly") + " forecast"
  }

  /** Toggling twice gets back to the starting mode, and the label never
      names the span being shown. */
  lemma ToggleLaws(mode: ForecastMode)
    ensures mode.Other().Other() == mode
    ensures ToggleLabel(mode) != mode.Span()
    ensures ToggleLabel(mode.Other()) == mode.Span()
  {
  }
}
