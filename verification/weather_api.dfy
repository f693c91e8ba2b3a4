/** The two requests of the API service (src/services/weatherApi.ts) with
    the network taken out: each operation receives what the server
    answered, already decoded, and normalises it into the application's
    shapes. Timestamps are integers; the API's floats are `real`. */
module WeatherApi {
  import opened Wrappers
  import opened Text
  import opened Types
  import WeatherCard

  // ---------------------------------------------------------------------
  // Location search

  /** One record of the search endpoint's answer. */
  datatype SearchItem = SearchItem(name: string, country: string, region: string, lat: real, lon: real)

  /** What `searchLocations` did: the query it sent, if any, and its result. */
  datatype Search = Search(sent: Option<string>, results: seq<Location>)

  function ToLocation(item: SearchItem): Location {
    Location(item.name, item.country, Some(item.region), item.lat, item.lon)
  }

  /** `searchLocations`. `reply` is the decoded answer, `None` when the
      request failed, the status was not ok or the body did not decode. */
  function SearchLocations(query: string, reply: Option<seq<SearchItem>>): (r: Search)
    ensures Blank(query) ==> r == Search(None, [])
    ensures !Blank(query) ==> r.sent == Some(query)
    ensures !Blank(query) && reply.None? ==> r.results == []
    ensures !Blank(query) && reply.Some? ==>
      |r.results| == |reply.value| &&
      forall i :: 0 <= i < |reply.value| ==>
        var item, l := reply.value[i], r.results[i];
        l.name == item.name && l.country == item.country && l.state == Some(item.region)
        && l.lat == item.lat && l.lon == item.lon
  {
    TrimEmptyIffBlank(query);
    if Trim(query) == [] then Search(None, [])
    else match reply
      case None => Search(Some(query), [])
      case Some(items) => Search(Some(query), seq(|items|, i requires 0 <= i < |items| => ToLocation(items[i])))
  }

  /** The record a search result was made from: `state` holds the
      region. */
  function FromLocation(l: Location): SearchItem {
    SearchItem(l.name, l.country, if l.state.Some? then l.state.value else "", l.lat, l.lon)
  }

  /** The search mapping loses nothing: each result gives back the record
      it came from, its identity key is the record's name and country,
      and a location with a state is the mapping of its own record. */
  lemma SearchResultsReadBack(query: string, items: seq<SearchItem>)
    requires !Blank(query)
    ensures var r := SearchLocations(query, Some(items)).results;
      |r| == |items|
      && forall i :: 0 <= i < |items| ==>
           FromLocation(r[i]) == items[i] && LocationKey(r[i]) == Key(items[i].name, items[i].country)
    ensures forall l: Location :: l.state.Some? ==> ToLocation(FromLocation(l)) == l
  {
  }

  // ---------------------------------------------------------------------
  // Forecast request

  /** How a coordinate is written into the forecast URL: JavaScript's
      number text (`show`), or "undefined" when the location object has no
      such property. */
  function CoordinateText(v: Option<real>, show: real -> string): string {
    if v.None? then "undefined" else show(v.value)
  }

  /** The `q` parameter of the forecast request, `${lat},${lon}`. */
  function ForecastQuery(lat: Option<real>, lon: Option<real>, show: real -> string): string {
    CoordinateText(lat, show) + "," + CoordinateText(lon, show)
  }

  /** The `q` parameter `getWeatherData` sends for a location. */
  function LocationQuery(l: Location, show: real -> string): string {
    ForecastQuery(Some(l.lat), Some(l.lon), show)
  }

  /** No coordinate text holds a comma when no number's text does. */
  lemma CoordinateNoComma(v: Option<real>, show: real -> string)
    requires forall x :: !Contains(show(x), ",")
    ensures !Contains(CoordinateText(v, show), ",")
  {
    match v
    case None => NoCharNoContains("undefined", ',');
    case Some(x) => assert CoordinateText(v, show) == show(x);
  }

  /** A number's text holds no comma, so the query splits back into the
      two coordinates it was built from. */
  lemma ForecastQueryReadsBack(lat: Option<real>, lon: Option<real>, show: real -> string)
    requires forall x :: !Contains(show(x), ",")
    ensures Split(ForecastQuery(lat, lon, show), ",") == [CoordinateText(lat, show), CoordinateText(lon, show)]
  {
    var a, b := CoordinateText(lat, show), CoordinateText(lon, show);
    CoordinateNoComma(lat, show);
    CoordinateNoComma(lon, show);
    forall j | 0 <= j < |a|
      ensures !OccursAt(a + ",", ",", j)
    {
      if OccursAt(a + ",", ",", j) {
        assert (a + ",")[j..j + 1][0] == a[j];
        ContainsInfix(a, ",", j);
      }
    }
    SplitAfterPrefix(a, ",", b);
    SplitNone(b, ",");
  }

  /** The query of a location object without coordinates. */
  lemma NoPlaceText(show: real -> string)
    ensures ForecastQuery(None, None, show) == "undefined,undefined"
  {
  }

  /** A coordinate reads "undefined" only when it is missing. */
  lemma UndefinedIffMissing(v: Option<real>, show: real -> string)
    requires forall x :: show(x) != "undefined"
    ensures CoordinateText(v, show) == "undefined" <==> v.None?
  {
    match v
    case None =>
    case Some(x) => assert show(x) != "undefined";
  }

  /** Since no number prints as "undefined", a request names no place
      exactly when both coordinates are missing. */
  lemma NoPlaceIffNoCoordinates(lat: Option<real>, lon: Option<real>, show: real -> string)
    requires forall x :: !Contains(show(x), ",")
    requires forall x :: show(x) != "undefined"
    ensures ForecastQuery(lat, lon, show) == ForecastQuery(None, None, show) <==> lat.None? && lon.None?
  {
    var q, none := ForecastQuery(lat, lon, show), ForecastQuery(None, None, show);
    ForecastQueryReadsBack(lat, lon, show);
    ForecastQueryReadsBack(None, None, show);
    UndefinedIffMissing(lat, show);
    UndefinedIffMissing(lon, show);
    if q == none {
      var parts, noneParts := Split(q, ","), Split(none, ",");
      assert parts[0] == noneParts[0] && parts[1] == noneParts[1];
    }
  }

  // ---------------------------------------------------------------------
  // Forecast reply

  datatype ForecastHour = ForecastHour(stamp: int, time: string, tempC: real, text: string, icon: string)

  datatype Astro = Astro(sunrise: string, sunset: string, moonrise: string, moonset: string, moonPhase: string)

  /** One forecast day. `chanceOfRain` is optional in the API. */
  datatype ForecastDay = ForecastDay(
    date: string,
    maxTempC: real,
    minTempC: real,
    avgHumidity: real,
    chanceOfRain: Option<real>,
    maxWindKph: real,
    text: string,
    icon: string,
    hours: seq<ForecastHour>,
    astro: Astro)

  /** The `current` block. `airQuality` (the US EPA index) and
      `precipMm` may be missing. */
  datatype CurrentReport = CurrentReport(
    tempC: real,
    feelsLikeC: real,
    text: string,
    icon: string,
    humidity: real,
    pressureMb: real,
    windKph: real,
    windDir: string,
    windDegree: real,
    airQuality: Option<real>,
    uv: real,
    cloud: real,
    precipMm: Option<real>,
    dewpointC: real)

  /** A decoded forecast body. `localNow` is `localtime` as an instant. */
  datatype Forecast = Forecast(localtime: string, localNow: int, current: CurrentReport, days: seq<ForecastDay>)

  /** How the forecast request ended. */
  datatype Reply = Unreachable | NotOk | Body(forecast: Option<Forecast>)

  /** Why `getWeatherData` rejects. */
  datatype FetchError = NetworkError | HttpError(message: string) | MalformedBody | NoForecastDays

  const FetchFailedMessage: string := "Failed to fetch weather data"

  /** `value || 0` on a number that may be missing; a present 0 gives 0
      either way. */
  function OrZero(v: Option<real>): (r: real)
    ensures v.Some? ==> r == v.value
    ensures v.None? ==> r == 0.0
  {
    if v.Some? then v.value else 0.0
  }

  // ---------------------------------------------------------------------
  // Hourly window

  /** The hours of all days, days in order and hours within each day. */
  function Flatten(days: seq<ForecastDay>): seq<ForecastHour> {
    if days == [] then [] else Flatten(days[..|days| - 1]) + days[|days| - 1].hours
  }

  /** The hours at or after `now`, in order. */
  function Upcoming(hours: seq<ForecastHour>, now: int): (r: seq<ForecastHour>)
    ensures |r| <= |hours|
    ensures forall h :: h in r <==> h in hours && h.stamp >= now
  {
    if hours == [] then []
    else
      var last := hours[|hours| - 1];
      Upcoming(hours[..|hours| - 1], now) + (if last.stamp >= now then [last] else [])
  }

  const HourlyLimit: nat := 24

  /** What the push loop keeps after visiting `hours` in order: an hour is
      kept when it is at or after `now` and fewer than 24 are kept. */
  function Window(hours: seq<ForecastHour>, now: int): seq<ForecastHour> {
    if hours == [] then []
    else
      var w := Window(hours[..|hours| - 1], now);
      var last := hours[|hours| - 1];
      if last.stamp >= now && |w| < HourlyLimit then w + [last] else w
  }

  /** The push loop keeps exactly the first 24 upcoming hours. */
  lemma {:induction false} WindowIsFirstUpcoming(hours: seq<ForecastHour>, now: int)
    ensures var u := Upcoming(hours, now);
      Window(hours, now) == if |u| <= HourlyLimit then u else u[..HourlyLimit]
  {
    if hours != [] {
      var init := hours[..|hours| - 1];
      WindowIsFirstUpcoming(init, now);
      var u0 := Upcoming(init, now);
      var u := Upcoming(hours, now);
      if |u0| > HourlyLimit {
        assert u[..HourlyLimit] == u0[..HourlyLimit];
      }
    }
  }

  function ToHourly(h: ForecastHour): HourlyWeather {
    HourlyWeather(h.stamp, h.time, Round(h.tempC), h.text, h.icon)
  }

  function MapHours(hours: seq<ForecastHour>): (r: seq<HourlyWeather>)
    ensures |r| == |hours|
    ensures forall i :: 0 <= i < |hours| ==> r[i] == ToHourly(hours[i])
  {
    seq(|hours|, i requires 0 <= i < |hours| => ToHourly(hours[i]))
  }

  /** The hourly list of a forecast. */
  function Hourly(days: seq<ForecastDay>, now: int): (r: seq<HourlyWeather>)
    ensures |r| <= HourlyLimit
    ensures forall i :: 0 <= i < |r| ==> r[i].stamp >= now
  {
    var w := Window(Flatten(days), now);
    WindowIsFirstUpcoming(Flatten(days), now);
    assert forall i :: 0 <= i < |w| ==> w[i] in Upcoming(Flatten(days), now);
    MapHours(w)
  }

  lemma WindowSnoc(hours: seq<ForecastHour>, x: ForecastHour, now: int)
    ensures var w := Window(hours, now);
      Window(hours + [x], now) == if x.stamp >= now && |w| < HourlyLimit then w + [x] else w
  {
    assert (hours + [x])[..|hours|] == hours;
  }

  lemma MapHoursSnoc(hours: seq<ForecastHour>, x: ForecastHour)
    ensures MapHours(hours + [x]) == MapHours(hours) + [ToHourly(x)]
  {
  }

  /** One visit of the inner loop, on the mapped list it keeps. */
  lemma PushStep(seen: seq<ForecastHour>, x: ForecastHour, now: int)
    ensures var before := MapHours(Window(seen, now));
      MapHours(Window(seen + [x], now))
      == if x.stamp >= now && |before| < HourlyLimit then before + [ToHourly(x)] else before
  {
    WindowSnoc(seen, x, now);
    MapHoursSnoc(Window(seen, now), x);
  }

  lemma FlattenPrefix(days: seq<ForecastDay>, d: nat)
    requires d < |days|
    ensures Flatten(days[..d + 1]) == Flatten(days[..d]) + days[d].hours
  {
    assert days[..d + 1][..d] == days[..d];
  }

  /** One more hour of a day visited: the window over the longer prefix
      is the window over the shorter one, with the hour pushed if the loop
      pushes it. */
  lemma PushPrefix(seen: seq<ForecastHour>, hours: seq<ForecastHour>, h: nat, now: int)
    requires h < |hours|
    ensures var before := MapHours(Window(seen + hours[..h], now));
      MapHours(Window(seen + hours[..h + 1], now))
      == if hours[h].stamp >= now && |before| < HourlyLimit then before + [ToHourly(hours[h])] else before
  {
    assert seen + hours[..h + 1] == (seen + hours[..h]) + [hours[h]];
    PushStep(seen + hours[..h], hours[h], now);
  }

  lemma PrefixEnds(seen: seq<ForecastHour>, hours: seq<ForecastHour>)
    ensures seen + hours[..0] == seen && hours[..|hours|] == hours
  {
  }

  /** The inner `forEach` over one day's hours: it pushes each hour that is
      not past while the list has room, which extends the window over the
      hours seen so far by that day. */
  method PushHours(ghost seen: seq<ForecastHour>, hourly: seq<HourlyWeather>, hours: seq<ForecastHour>, now: int)
    returns (r: seq<HourlyWeather>)
    requires hourly == MapHours(Window(seen, now))
    ensures r == MapHours(Window(seen + hours, now))
  {
    PrefixEnds(seen, hours);
    r := hourly;
    var h := 0;
    while h < |hours|
      invariant 0 <= h <= |hours|
      invariant r == MapHours(Window(seen + hours[..h], now))
    {
      PushPrefix(seen, hours, h, now);
      if hours[h].stamp >= now && |r| < HourlyLimit {
        r := r + [ToHourly(hours[h])];
      }
      h := h + 1;
    }
  }

  /** The nested `forEach` loops of `getWeatherData` that fill the hourly
      list; they compute `Hourly`. */
  method HourlyLoop(days: seq<ForecastDay>, now: int) returns (hourly: seq<HourlyWeather>)
    ensures hourly == Hourly(days, now)
  {
    hourly := [];
    var d := 0;
    while d < |days|
      invariant 0 <= d <= |days|
      invariant hourly == MapHours(Window(Flatten(days[..d]), now))
    {
      hourly := PushHours(Flatten(days[..d]), hourly, days[d].hours, now);
      FlattenPrefix(days, d);
      d := d + 1;
    }
    assert days[..d] == days;
  }

  // ---------------------------------------------------------------------
  // Daily list and the snapshot

  function ToDaily(day: ForecastDay): (r: DailyWeather)
    ensures r.date == day.date && r.description == day.text && r.icon == day.icon
    ensures r.humidity == day.avgHumidity
    ensures r.chanceOfRain == if day.chanceOfRain.Some? then day.chanceOfRain.value else 0.0
    ensures r.tempHigh as real - 0.5 <= day.maxTempC < r.tempHigh as real + 0.5
    ensures r.tempLow as real - 0.5 <= day.minTempC < r.tempLow as real + 0.5
    ensures r.windSpeed as real - 0.5 <= day.maxWindKph < r.windSpeed as real + 0.5
  {
    DailyWeather(day.date, Round(day.maxTempC), Round(day.minTempC), day.text, day.icon,
                 day.avgHumidity, OrZero(day.chanceOfRain), Round(day.maxWindKph))
  }

  function Daily(days: seq<ForecastDay>): (r: seq<DailyWeather>)
    ensures |r| == |days|
    ensures forall i :: 0 <= i < |days| ==> r[i] == ToDaily(days[i])
  {
    seq(|days|, i requires 0 <= i < |days| => ToDaily(days[i]))
  }

  function ToCurrent(c: CurrentReport): (r: Current)
    ensures r.airQuality == if c.airQuality.Some? then c.airQuality.value else 0.0
    ensures r.precipitation == if c.precipMm.Some? then c.precipMm.value else 0.0
    ensures r.description == c.text && r.icon == c.icon && r.windDirection == c.windDir
    ensures r.humidity == c.humidity && r.windDegree == c.windDegree && r.uvIndex == c.uv && r.cloudCover == c.cloud
    ensures r.temp as real - 0.5 <= c.tempC < r.temp as real + 0.5
    ensures r.feelsLike as real - 0.5 <= c.feelsLikeC < r.feelsLike as real + 0.5
    ensures r.pressure as real - 0.5 <= c.pressureMb < r.pressure as real + 0.5
    ensures r.windSpeed as real - 0.5 <= c.windKph < r.windSpeed as real + 0.5
    ensures r.dewPoint as real - 0.5 <= c.dewpointC < r.dewPoint as real + 0.5
  {
    Current(Round(c.tempC), Round(c.feelsLikeC), c.text, c.icon, c.humidity, Round(c.pressureMb),
            Round(c.windKph), c.windDir, c.windDegree, OrZero(c.airQuality), c.uv, c.cloud,
            OrZero(c.precipMm), Round(c.dewpointC))
  }

  /** Rounding keeps a day's figures in order, and whole-number figures
      are shown exactly. */
  lemma DailyFigures(day: ForecastDay)
    ensures day.minTempC <= day.maxTempC ==> ToDaily(day).tempLow <= ToDaily(day).tempHigh
    ensures day.maxTempC == day.maxTempC.Floor as real ==> ToDaily(day).tempHigh as real == day.maxTempC
    ensures day.minTempC == day.minTempC.Floor as real ==> ToDaily(day).tempLow as real == day.minTempC
  {
    if day.minTempC <= day.maxTempC {
      RoundMonotone(day.minTempC, day.maxTempC);
    }
    RoundWhole(day.maxTempC.Floor);
    RoundWhole(day.minTempC.Floor);
  }

  /** The defaulted air-quality index reaches the card as "Unknown"
      exactly when the report had no index in 1..6, and rounding keeps the
      felt temperature on the same side of the measured one. */
  lemma CurrentFigures(c: CurrentReport)
    ensures WeatherCard.GetAirQuality(ToCurrent(c).airQuality) != WeatherCard.UnknownLabel
      <==> c.airQuality.Some? && c.airQuality.value in {1.0, 2.0, 3.0, 4.0, 5.0, 6.0}
    ensures c.feelsLikeC <= c.tempC ==> ToCurrent(c).feelsLike <= ToCurrent(c).temp
    ensures c.tempC <= c.feelsLikeC ==> ToCurrent(c).temp <= ToCurrent(c).feelsLike
  {
    if c.feelsLikeC <= c.tempC {
      RoundMonotone(c.feelsLikeC, c.tempC);
    }
    if c.tempC <= c.feelsLikeC {
      RoundMonotone(c.tempC, c.feelsLikeC);
    }
  }

  /** `getWeatherData`: a non-ok status and every failure on the way
      (including a body with no forecast day, whose first day is read for
      the astronomy block) reject; otherwise the snapshot, labelled with the
      location's identity key. */
  function GetWeatherData(location: Location, reply: Reply): (r: Result<WeatherData, FetchError>)
    ensures reply.Unreachable? <==> r == Err(NetworkError)
    ensures reply.NotOk? <==> r == Err(HttpError(FetchFailedMessage))
    ensures reply == Body(None) <==> r == Err(MalformedBody)
    ensures r.Ok? <==> reply.Body? && reply.forecast.Some? && reply.forecast.value.days != []
    ensures r.Ok? ==>
      var f := reply.forecast.value;
      r.value.location == LocationKey(location)
      && r.value.daily == Daily(f.days)
      && r.value.current == ToCurrent(f.current)
      && r.value.hourly == Hourly(f.days, f.localNow)
      && |r.value.daily| == |f.days|
      && |r.value.hourly| <= HourlyLimit
      && r.value.astronomy.sunrise == f.days[0].astro.sunrise
      && r.value.astronomy.sunset == f.days[0].astro.sunset
      && r.value.astronomy.localTime == f.localtime
  {
    match reply
    case Unreachable => Err(NetworkError)
    case NotOk => Err(HttpError(FetchFailedMessage))
    case Body(None) => Err(MalformedBody)
    case Body(Some(f)) =>
      if f.days == [] then Err(NoForecastDays)
      else
        var astro := f.days[0].astro;
        Ok(WeatherData(
          Key(location.name, location.country),
          ToCurrent(f.current),
          Astronomy(astro.sunrise, astro.sunset, astro.moonrise, astro.moonset, astro.moonPhase, f.localtime),
          Hourly(f.days, f.localNow),
          Daily(f.days)))
  }

  /** The hourly list holds the first 24 upcoming hours of the forecast,
      in order, and nothing else. */
  lemma HourlyIsFirstUpcoming(location: Location, f: Forecast)
    requires f.days != []
    ensures var r := GetWeatherData(location, Body(Some(f)));
      var u := Upcoming(Flatten(f.days), f.localNow);
      r.Ok? && r.value.hourly == MapHours(if |u| <= HourlyLimit then u else u[..HourlyLimit])
  {
    WindowIsFirstUpcoming(Flatten(f.days), f.localNow);
  }
}
