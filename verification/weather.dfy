/** The classifiers of src/utils/weather.ts: weather condition from the
    condition text, temperature band, the 12-hour clock parser, the
    dawn/day/dusk/night period and the emoji icon. */
module WeatherUtils {
  import opened Wrappers
  import opened Text

  // ---------------------------------------------------------------------
  // Keyword groups. `c` is always the lower-cased condition text.

  predicate SaysClear(c: string) {
    Contains(c, "clear") || Contains(c, "sunny")
  }

  predicate SaysStorm(c: string) {
    Contains(c, "thunder") || Contains(c, "storm") || Contains(c, "lightning")
  }

  predicate SaysRain(c: string) {
    Contains(c, "rain") || Contains(c, "shower") || Contains(c, "drizzle")
  }

  predicate SaysSnow(c: string) {
    Contains(c, "snow") || Contains(c, "blizzard") || Contains(c, "sleet") || Contains(c, "ice")
  }

  predicate SaysFog(c: string) {
    Contains(c, "mist") || Contains(c, "fog") || Contains(c, "haze")
  }

  predicate SaysCloud(c: string) {
    Contains(c, "cloudy") || Contains(c, "overcast")
  }

  // ---------------------------------------------------------------------
  // Weather condition

  datatype Condition = Sunny | Stormy | Rainy | Snowy | Foggy | Cloudy {
    function Name(): string {
      match this
      case Sunny => "sunny"
      case Stormy => "stormy"
      case Rainy => "rainy"
      case Snowy => "snowy"
      case Foggy => "foggy"
      case Cloudy => "cloudy"
    }
  }

  /** `getWeatherCondition`: lower-case the text, the first keyword group
      that matches decides, and 'cloudy' is the default. */
  function GetWeatherCondition(conditionText: string): Condition {
    var c := ToLower(conditionText);
    if SaysClear(c) then Sunny
    else if SaysStorm(c) then Stormy
    else if SaysRain(c) then Rainy
    else if SaysSnow(c) then Snowy
    else if SaysFog(c) then Foggy
    else if SaysCloud(c) then Cloudy
    else Cloudy
  }

  /** The first matching group wins: each category holds exactly when its
      keywords occur and no earlier group's do; everything else is cloudy. */
  lemma ConditionFirstMatch(text: string)
    ensures var c := ToLower(text);
      && (GetWeatherCondition(text) == Sunny <==> SaysClear(c))
      && (GetWeatherCondition(text) == Stormy <==> !SaysClear(c) && SaysStorm(c))
      && (GetWeatherCondition(text) == Rainy <==> !SaysClear(c) && !SaysStorm(c) && SaysRain(c))
      && (GetWeatherCondition(text) == Snowy <==> !SaysClear(c) && !SaysStorm(c) && !SaysRain(c) && SaysSnow(c))
      && (GetWeatherCondition(text) == Foggy <==>
            !SaysClear(c) && !SaysStorm(c) && !SaysRain(c) && !SaysSnow(c) && SaysFog(c))
      && (GetWeatherCondition(text) == Cloudy <==>
            !SaysClear(c) && !SaysStorm(c) && !SaysRain(c) && !SaysSnow(c) && !SaysFog(c))
  {
  }

  /** The classifier ignores case: it gives the same category for a text
      and for its lower-cased form. */
  lemma ConditionIgnoresCase(text: string)
    ensures GetWeatherCondition(ToLower(text)) == GetWeatherCondition(text)
  {
    ToLowerIdempotent(text);
  }

  /** "clear" or "sunny" wins over everything, even rain and storm words. */
  lemma ClearBeatsStorm(text: string)
    requires Contains(ToLower(text), "clear")
    ensures GetWeatherCondition(text) == Sunny
  {
  }

  // ---------------------------------------------------------------------
  // Temperature band

  /** The ten bands, coldest first. */
  datatype TempBand = Freezing | VeryCold | Cold | Cool | Mild | Pleasant | Warm | Hot | VeryHot | Scorching {
    function Rank(): nat {
      match this
      case Freezing => 0
      case VeryCold => 1
      case Cold => 2
      case Cool => 3
      case Mild => 4
      case Pleasant => 5
      case Warm => 6
      case Hot => 7
      case VeryHot => 8
      case Scorching => 9
    }

    function CssClass(): string {
      match this
      case Freezing => "temp-freezing"
      case VeryCold => "temp-very-cold"
      case Cold => "temp-cold"
      case Cool => "temp-cool"
      case Mild => "temp-mild"
      case Pleasant => "temp-pleasant"
      case Warm => "temp-warm"
      case Hot => "temp-hot"
      case VeryHot => "temp-very-hot"
      case Scorching => "temp-scorching"
    }
  }

  /** The lower bounds (°C) of the bands above `Freezing`, in band order. */
  const BandFloors: seq<real> := [-7.0, -1.0, 4.0, 10.0, 16.0, 21.0, 27.0, 32.0, 38.0]

  /** `getTemperatureClass` */
  function GetTemperatureClass(tempC: real): TempBand {
    if tempC >= 38.0 then Scorching
    else if tempC >= 32.0 then VeryHot
    else if tempC >= 27.0 then Hot
    else if tempC >= 21.0 then Warm
    else if tempC >= 16.0 then Pleasant
    else if tempC >= 10.0 then Mild
    else if tempC >= 4.0 then Cool
    else if tempC >= -1.0 then Cold
    else if tempC >= -7.0 then VeryCold
    else Freezing
  }

  /** `t` lies in the half-open interval of band `b`: at or above its floor
      and below the next band's floor. */
  predicate InBand(t: real, b: TempBand) {
    var k := b.Rank();
    (k == 0 || BandFloors[k - 1] <= t) && (k == 9 || t < BandFloors[k])
  }

  /** Each band is exactly its interval, inclusive at the bottom. */
  lemma TemperatureBandIff(t: real, b: TempBand)
    ensures GetTemperatureClass(t) == b <==> InBand(t, b)
  {
  }

  /** A warmer temperature never lands in a colder band. */
  lemma TemperatureMonotone(t1: real, t2: real)
    requires t1 <= t2
    ensures GetTemperatureClass(t1).Rank() <= GetTemperatureClass(t2).Rank()
  {
  }

  lemma TemperatureEdges()
    ensures GetTemperatureClass(38.0) == Scorching
    ensures GetTemperatureClass(37.9) == VeryHot
    ensures GetTemperatureClass(-1.0) == Cold
    ensures GetTemperatureClass(-0.5) == Cold
    ensures GetTemperatureClass(-7.0) == VeryCold
    ensures GetTemperatureClass(-7.1) == Freezing
  {
  }

  // ---------------------------------------------------------------------
  // 12-hour clock

  /** `parseTime`: `[time, period] = s.split(' ')`,
      `[hours, minutes] = time.split(':').map(Number)`, then the 12-hour
      adjustment. A missing part is `undefined`, which `Number` and the
      arithmetic turn into NaN. */
  function ParseTime(timeStr: string): Num {
    TimeOfParts(Split(timeStr, " "))
  }

  /** `parseTime` after the split on ' ': the period is the second part,
      if any, and the first is split on ':'. */
  function TimeOfParts(parts: seq<string>): Num
    requires |parts| >= 1
  {
    var period: Option<string> := if |parts| > 1 then Some(parts[1]) else None;
    TimeOfFields(period, Split(parts[0], ":"))
  }

  function TimeOfFields(period: Option<string>, fields: seq<string>): Num
    requires |fields| >= 1
  {
    var minutes := if |fields| > 1 then ToNumber(fields[1]) else NaN;
    DayMinutes(period, ToNumber(fields[0]), minutes)
  }

  /** The 12-hour adjustment of `parseTime` and the final
      `hours * 60 + minutes`. */
  function DayMinutes(period: Option<string>, hours: Num, minutes: Num): Num {
    var hour24 :=
      if period == Some("PM") && hours != Int(12) then hours.Plus(12)
      else if period == Some("AM") && hours == Int(12) then Int(0)
      else hours;
    if hour24.Int? && minutes.Int? then Int(hour24.v * 60 + minutes.v) else NaN
  }

  /** Two decimal digits, as the forecast API writes clock fields. */
  function Pad2(n: nat): string
    requires n < 100
  {
    [DigitChar(n / 10), DigitChar(n % 10)]
  }

  /** The API's clock text "hh:mm AM" / "hh:mm PM". */
  function ClockText(h: nat, m: nat, pm: bool): string
    requires h < 100 && m < 100
  {
    Pad2(h) + ":" + Pad2(m) + " " + PeriodText(pm)
  }

  lemma Pad2Number(n: nat)
    requires n < 100
    ensures ToNumber(Pad2(n)) == Int(n)
  {
    var s := Pad2(n);
    TrimNoSpaceEnds(s);
    assert AllDigits(s);
    assert s[0] != '-' && s[0] != '+';
    assert s[..1][..0] == [];
    assert DigitsValue(s[..1]) == n / 10;
    assert DigitsValue(s) == DigitsValue(s[..1]) * 10 + DigitValue(s[1]);
  }

  function PeriodText(pm: bool): string {
    if pm then "PM" else "AM"
  }

  /** How the two `split` calls of `parseTime` cut a well-formed reading. */
  lemma ClockFields(h: nat, m: nat, pm: bool)
    requires h < 100 && m < 100
    ensures Split(ClockText(h, m, pm), " ") == [Pad2(h) + ":" + Pad2(m), PeriodText(pm)]
    ensures Split(Pad2(h) + ":" + Pad2(m), ":") == [Pad2(h), Pad2(m)]
  {
    var hs, ms := Pad2(h), Pad2(m);
    var time := hs + ":" + ms;
    var period := PeriodText(pm);
    forall j | 0 <= j < |time|
      ensures !OccursAt(time + " ", " ", j)
    {
      assert (time + " ")[j..j + 1] == [time[j]];
    }
    SplitAfterPrefix(time, " ", period);
    NoCharNoContains(period, ' ');
    SplitNone(period, " ");
    assert ClockText(h, m, pm) == time + " " + period;
    forall j | 0 <= j < |hs|
      ensures !OccursAt(hs + ":", ":", j)
    {
      assert (hs + ":")[j..j + 1] == [hs[j]];
    }
    SplitAfterPrefix(hs, ":", ms);
    NoCharNoContains(ms, ':');
    SplitNone(ms, ":");
  }

  /** `parseTime` on a text whose two splits are known. */
  lemma ParseTimeOfFields(s: string, time: string, period: string, hs: string, ms: string)
    requires Split(s, " ") == [time, period]
    requires Split(time, ":") == [hs, ms]
    ensures ParseTime(s) == DayMinutes(Some(period), ToNumber(hs), ToNumber(ms))
  {
    TwoParts(time, period);
    TwoFields(Some(period), hs, ms);
  }

  lemma TwoParts(time: string, period: string)
    ensures TimeOfParts([time, period]) == TimeOfFields(Some(period), Split(time, ":"))
  {
  }

  lemma TwoFields(period: Option<string>, hs: string, ms: string)
    ensures TimeOfFields(period, [hs, ms]) == DayMinutes(period, ToNumber(hs), ToNumber(ms))
  {
  }

  /** Minutes since midnight of a 12-hour reading. */
  function ClockMinutes(h: nat, m: nat, pm: bool): int {
    (if h == 12 then 0 else h) * 60 + (if pm then 720 else 0) + m
  }

  /** The 12-hour adjustment on well-formed fields. */
  lemma AdjustReading(h: nat, m: nat, pm: bool)
    requires 1 <= h <= 12 && m < 60
    ensures DayMinutes(Some(PeriodText(pm)), Int(h), Int(m)) == Int(ClockMinutes(h, m, pm))
  {
  }

  /** A well-formed 12-hour reading parses to its minutes since midnight:
      12 AM is hour 0, 12 PM is hour 12, and other PM hours add 12. */
  lemma ParseClock(h: nat, m: nat, pm: bool)
    requires 1 <= h <= 12 && m < 60
    ensures ParseTime(ClockText(h, m, pm)) == Int(ClockMinutes(h, m, pm))
    ensures var t := ClockMinutes(h, m, pm);
      && 0 <= t < 1440
      && (h == 12 && !pm ==> t == m)
      && (h == 12 && pm ==> t == 720 + m)
      && (h < 12 && pm ==> t == (h + 12) * 60 + m)
      && (h < 12 && !pm ==> t == h * 60 + m)
  {
    ClockFields(h, m, pm);
    Pad2Number(h);
    Pad2Number(m);
    ParseTimeOfFields(ClockText(h, m, pm), Pad2(h) + ":" + Pad2(m), PeriodText(pm), Pad2(h), Pad2(m));
    AdjustReading(h, m, pm);
  }

  /** Two readings of the 12-hour clock parse to the same minutes exactly
      when they are the same reading. */
  lemma ParseClockInjective(h1: nat, m1: nat, pm1: bool, h2: nat, m2: nat, pm2: bool)
    requires 1 <= h1 <= 12 && m1 < 60 && 1 <= h2 <= 12 && m2 < 60
    ensures ParseTime(ClockText(h1, m1, pm1)) == ParseTime(ClockText(h2, m2, pm2))
      <==> h1 == h2 && m1 == m2 && pm1 == pm2
  {
    ParseClock(h1, m1, pm1);
    ParseClock(h2, m2, pm2);
    ClockMinutesInjective(h1, m1, pm1, h2, m2, pm2);
  }

  /** Distinct 12-hour readings are distinct minutes: the minutes are the
      remainder by 60, the hour of the day the quotient, and that hour
      gives back the period and the 12-hour figure. */
  lemma ClockMinutesInjective(h1: nat, m1: nat, pm1: bool, h2: nat, m2: nat, pm2: bool)
    requires 1 <= h1 <= 12 && m1 < 60 && 1 <= h2 <= 12 && m2 < 60
    ensures ClockMinutes(h1, m1, pm1) == ClockMinutes(h2, m2, pm2) ==> h1 == h2 && m1 == m2 && pm1 == pm2
  {
    var a1 := (if h1 == 12 then 0 else h1) + (if pm1 then 12 else 0);
    var a2 := (if h2 == 12 then 0 else h2) + (if pm2 then 12 else 0);
    assert ClockMinutes(h1, m1, pm1) == a1 * 60 + m1;
    assert ClockMinutes(h2, m2, pm2) == a2 * 60 + m2;
  }

  // ---------------------------------------------------------------------
  // Period of the day

  datatype Period = Dawn | Day | Dusk | Night {
    function CssClass(): string {
      match this
      case Dawn => "time-dawn"
      case Day => "time-day"
      case Dusk => "time-dusk"
      case Night => "time-night"
    }
  }

  // JavaScript comparisons of an integer with a number: false against NaN.
  predicate AtLeast(t: int, n: Num) { n.Int? && t >= n.v }
  predicate AtMost(t: int, n: Num) { n.Int? && t <= n.v }
  predicate Above(t: int, n: Num) { n.Int? && t > n.v }
  predicate Below(t: int, n: Num) { n.Int? && t < n.v }

  /** The comparison chain of `getTimeOfDay`: dawn from 30 minutes before
      to 15 minutes after sunrise, dusk likewise around sunset, day in
      between, night otherwise; dawn is tested first. */
  function ClassifyMinutes(t: int, sunrise: Num, sunset: Num): Period {
    var dawnStart := sunrise.Plus(-30);
    var dawnEnd := sunrise.Plus(15);
    var duskStart := sunset.Plus(-30);
    var duskEnd := sunset.Plus(15);
    if AtLeast(t, dawnStart) && AtMost(t, dawnEnd) then Dawn
    else if Above(t, dawnEnd) && Below(t, duskStart) then Day
    else if AtLeast(t, duskStart) && AtMost(t, duskEnd) then Dusk
    else Night
  }

  /** `getTimeOfDay`, with the local time already reduced to minutes since
      midnight (`getHours() * 60 + getMinutes()`). */
  function GetTimeOfDay(nowMinutes: int, sunrise: string, sunset: string): Period {
    ClassifyMinutes(nowMinutes, ParseTime(sunrise), ParseTime(sunset))
  }

  /** `getForecastTimeOfDay`: the same chain written out again for an
      hourly entry; it agrees with `getTimeOfDay` on every input. */
  function GetForecastTimeOfDay(hourMinutes: int, sunrise: string, sunset: string): (p: Period)
    ensures p == GetTimeOfDay(hourMinutes, sunrise, sunset)
  {
    var sunriseMinutes := ParseTime(sunrise);
    var sunsetMinutes := ParseTime(sunset);
    var dawnStart := sunriseMinutes.Plus(-30);
    var dawnEnd := sunriseMinutes.Plus(15);
    var duskStart := sunsetMinutes.Plus(-30);
    var duskEnd := sunsetMinutes.Plus(15);
    if AtLeast(hourMinutes, dawnStart) && AtMost(hourMinutes, dawnEnd) then Dawn
    else if Above(hourMinutes, dawnEnd) && Below(hourMinutes, duskStart) then Day
    else if AtLeast(hourMinutes, duskStart) && AtMost(hourMinutes, duskEnd) then Dusk
    else Night
  }

  /** With both sun times parsed, the four periods are exactly these
      windows, compared on raw minutes (nothing wraps past midnight). */
  lemma PeriodWindows(t: int, sunriseAt: int, sunsetAt: int)
    ensures ClassifyMinutes(t, Int(sunriseAt), Int(sunsetAt)) == Dawn <==> sunriseAt - 30 <= t <= sunriseAt + 15
    ensures ClassifyMinutes(t, Int(sunriseAt), Int(sunsetAt)) == Day <==> sunriseAt + 15 < t < sunsetAt - 30
    ensures ClassifyMinutes(t, Int(sunriseAt), Int(sunsetAt)) == Dusk <==>
      !(sunriseAt - 30 <= t <= sunriseAt + 15) && sunsetAt - 30 <= t <= sunsetAt + 15
    ensures ClassifyMinutes(t, Int(sunriseAt), Int(sunsetAt)) == Night <==>
      !(sunriseAt - 30 <= t <= sunriseAt + 15) && !(sunriseAt + 15 < t < sunsetAt - 30) && !(sunsetAt - 30 <= t <= sunsetAt + 15)
  {
  }

  /** An unparsable sunrise only leaves dusk or night; with both
      unparsable it is always night. */
  lemma PeriodUnparsable(t: int, sunset: Num)
    ensures ClassifyMinutes(t, NaN, sunset) in {Dusk, Night}
    ensures ClassifyMinutes(t, NaN, NaN) == Night
  {
  }

  /** The windows do not wrap: 23:50 is not dawn for a 00:10 sunrise. */
  lemma NoWrapPastMidnight()
    ensures ClassifyMinutes(1430, Int(10), Int(1080)) == Night
  {
  }

  lemma ClockTextExamples()
    ensures ClockText(12, 0, false) == "12:00 AM"
    ensures ClockText(12, 0, true) == "12:00 PM"
    ensures ClockText(5, 45, false) == "05:45 AM"
  {
  }

  /** `ParseClock` for a text already known to be a given reading. */
  lemma ReadingParses(s: string, h: nat, m: nat, pm: bool)
    requires 1 <= h <= 12 && m < 60 && s == ClockText(h, m, pm)
    ensures ParseTime(s) == Int(ClockMinutes(h, m, pm))
  {
    ParseClock(h, m, pm);
  }

  /** For sun times in the API's clock format, the period of the day is
      decided by the windows around the two readings' minutes. */
  lemma ReadingWindows(t: int, h1: nat, m1: nat, pm1: bool, h2: nat, m2: nat, pm2: bool)
    requires 1 <= h1 <= 12 && m1 < 60 && 1 <= h2 <= 12 && m2 < 60
    ensures var rise, fall := ClockMinutes(h1, m1, pm1), ClockMinutes(h2, m2, pm2);
      var p := GetTimeOfDay(t, ClockText(h1, m1, pm1), ClockText(h2, m2, pm2));
      && (p == Dawn <==> rise - 30 <= t <= rise + 15)
      && (p == Day <==> rise + 15 < t < fall - 30)
      && (p == Dusk <==> !(rise - 30 <= t <= rise + 15) && fall - 30 <= t <= fall + 15)
  {
    var sunrise, sunset := ClockText(h1, m1, pm1), ClockText(h2, m2, pm2);
    ReadingParses(sunrise, h1, m1, pm1);
    ReadingParses(sunset, h2, m2, pm2);
    PeriodWindows(t, ClockMinutes(h1, m1, pm1), ClockMinutes(h2, m2, pm2));
  }

  /** With sunrise "12:00 AM" and sunset "12:00 PM" (minutes 0 and 720),
      midnight is dawn and noon is dusk. */
  lemma MidnightAndNoonEdges()
    ensures ClockMinutes(12, 0, false) == 0 && ClockMinutes(12, 0, true) == 720
    ensures GetTimeOfDay(0, ClockText(12, 0, false), ClockText(12, 0, true)) == Dawn
    ensures GetTimeOfDay(720, ClockText(12, 0, false), ClockText(12, 0, true)) == Dusk
  {
    ReadingWindows(0, 12, 0, false, 12, 0, true);
    ReadingWindows(720, 12, 0, false, 12, 0, true);
  }

  // ---------------------------------------------------------------------
  // Icon

  /** The emoji `getWeatherIcon` can return. */
  datatype Icon = Sun | Moon | SunBehindCloud | Cloud | FogIcon | RainCloud | SunRain
                | Thunder | SnowCloud | Snowflake | IceCube | WindFace | SunSmallCloud {
    function Glyph(): string {
      match this
      case Sun => "☀️"
      case Moon => "🌙"
      case SunBehindCloud => "⛅"
      case Cloud => "☁️"
      case FogIcon => "🌫️"
      case RainCloud => "🌧️"
      case SunRain => "🌦️"
      case Thunder => "⛈️"
      case SnowCloud => "🌨️"
      case Snowflake => "❄️"
      case IceCube => "🧊"
      case WindFace => "💨"
      case SunSmallCloud => "🌤️"
    }
  }

  predicate SaysPartly(c: string) {
    Contains(c, "partly cloudy") || Contains(c, "partly overcast")
  }

  predicate SaysHeavyRain(c: string) {
    Contains(c, "heavy rain") || Contains(c, "torrential") || Contains(c, "moderate rain")
  }

  predicate SaysLightRain(c: string) {
    Contains(c, "patchy rain") || Contains(c, "light rain") || Contains(c, "drizzle")
  }

  predicate SaysRainOrShower(c: string) {
    Contains(c, "rain") || Contains(c, "shower")
  }

  predicate SaysHeavySnow(c: string) {
    Contains(c, "heavy snow") || Contains(c, "blizzard")
  }

  predicate SaysAnySnow(c: string) {
    Contains(c, "patchy snow") || Contains(c, "light snow") || Contains(c, "snow")
  }

  predicate SaysSleet(c: string) {
    Contains(c, "sleet") || Contains(c, "ice pellets")
  }

  predicate SaysWind(c: string) {
    Contains(c, "windy") || Contains(c, "gale") || Contains(c, "breezy")
  }

  /** No rule of the icon chain fires: the default branch. */
  predicate IconDefault(c: string) {
    !SaysClear(c) && !SaysPartly(c) && !SaysCloud(c) && !SaysFog(c)
    && !SaysHeavyRain(c) && !SaysLightRain(c) && !SaysRainOrShower(c)
    && !SaysStorm(c) && !SaysHeavySnow(c) && !SaysAnySnow(c) && !SaysSleet(c)
    && !Contains(c, "hail") && !SaysWind(c) && !Contains(c, "freezing")
  }

  /** The rule chain of `getWeatherIcon` on the lower-cased text. */
  function IconFor(c: string, isNight: bool): Icon {
    if SaysClear(c) then (if isNight then Moon else Sun)
    else if SaysPartly(c) then (if isNight then Cloud else SunBehindCloud)
    else if SaysCloud(c) then Cloud
    else if SaysFog(c) then FogIcon
    else if SaysHeavyRain(c) then RainCloud
    else if SaysLightRain(c) then SunRain
    else if SaysRainOrShower(c) then RainCloud
    else if SaysStorm(c) then Thunder
    else if SaysHeavySnow(c) then SnowCloud
    else if SaysAnySnow(c) then Snowflake
    else if SaysSleet(c) then IceCube
    else if Contains(c, "hail") then IceCube
    else if SaysWind(c) then WindFace
    else if Contains(c, "freezing") then IceCube
    else (if isNight then Moon else SunSmallCloud)
  }

  /** `getWeatherIcon`: it is night iff the icon URL contains "/night/". */
  function GetWeatherIcon(conditionText: string, iconUrl: string): Icon {
    IconFor(ToLower(conditionText), Contains(iconUrl, "/night/"))
  }

  /** The night flag matters exactly for the clear, partly-cloudy and
      default branches. */
  lemma NightOnlyMatters(c: string)
    ensures IconFor(c, true) != IconFor(c, false) <==> SaysClear(c) || SaysPartly(c) || IconDefault(c)
  {
  }

  /** "partly cloudy" is checked before "cloudy", which it contains. */
  lemma PartlyBeforeCloudy(c: string, isNight: bool)
    requires !SaysClear(c) && Contains(c, "partly cloudy")
    ensures SaysCloud(c)
    ensures IconFor(c, isNight) == if isNight then Cloud else SunBehindCloud
  {
    assert OccursAt("partly cloudy", "cloudy", 7);
    ContainsTrans(c, "partly cloudy", "cloudy");
  }

  /** Rain rules are ordered heavy, then light, then generic, and all of
      them come before thunder: a text that reaches the rain rules and
      mentions rain never gets the thunder icon. */
  lemma RainOrdering(c: string, isNight: bool)
    requires !SaysClear(c) && !SaysPartly(c) && !SaysCloud(c) && !SaysFog(c)
    ensures SaysHeavyRain(c) ==> IconFor(c, isNight) == RainCloud
    ensures !SaysHeavyRain(c) && SaysLightRain(c) ==> IconFor(c, isNight) == SunRain
    ensures SaysHeavyRain(c) || SaysLightRain(c) || SaysRainOrShower(c) ==> IconFor(c, isNight) != Thunder
  {
  }

  /** Heavy snow and blizzard come before snow, and snow before sleet. */
  lemma SnowOrdering(c: string, isNight: bool)
    requires !SaysClear(c) && !SaysPartly(c) && !SaysCloud(c) && !SaysFog(c)
    requires !SaysHeavyRain(c) && !SaysLightRain(c) && !SaysRainOrShower(c) && !SaysStorm(c)
    ensures SaysHeavySnow(c) ==> IconFor(c, isNight) == SnowCloud
    ensures !SaysHeavySnow(c) && Contains(c, "snow") ==> IconFor(c, isNight) == Snowflake
    ensures !SaysHeavySnow(c) && !SaysAnySnow(c) && SaysSleet(c) ==> IconFor(c, isNight) == IceCube
  {
  }

  /** The card's 'sunny' class and the daytime sun icon go together. */
  lemma SunnyConditionMeansSunIcon(text: string)
    ensures GetWeatherCondition(text) == Sunny <==> IconFor(ToLower(text), false) == Sun
  {
  }

  /** An icon path without a leading slash ("night/116.png") does not
      contain "/night/", so it selects the daytime icons. */
  lemma RelativeNightPathIsDay()
    ensures GetWeatherIcon("Clear", "night/116.png") == Sun
  {
    var u := "night/116.png";
    forall i
      ensures !OccursAt(u, "/night/", i)
    {
      if 0 <= i && i + 7 <= |u| {
        assert u[i..i + 7][0] == u[i];
        assert u[i..i + 7][1] == u[i + 1];
      }
    }
    assert ToLower("Clear") == "clear";
    assert OccursAt("clear", "clear", 0);
  }
}
