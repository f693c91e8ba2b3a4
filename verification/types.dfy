/** The shapes the application passes around (src/types.ts) and the
    identity key of a location. Numbers the API delivers as floats are
    `real`; numbers the application has already rounded are `int`. */
module Types {
  import opened Wrappers

  datatype Location = Location(
    name: string,
    country: string,
    state: Option<string>,
    lat: real,
    lon: real)

  datatype Current = Current(
    temp: int,
    feelsLike: int,
    description: string,
    icon: string,
    humidity: real,
    pressure: int,
    windSpeed: int,
    windDirection: string,
    windDegree: real,
    airQuality: real,
    uvIndex: real,
    cloudCover: real,
    precipitation: real,
    dewPoint: int)

  datatype Astronomy = Astronomy(
    sunrise: string,
    sunset: string,
    moonrise: string,
    moonset: string,
    moonPhase: string,
    localTime: string)

  /** One hour of forecast. `stamp` is the parsed `datetime` (the model
      keeps the instant instead of its locale-formatted `time` label). */
  datatype HourlyWeather = HourlyWeather(
    stamp: int,
    datetime: string,
    temp: int,
    description: string,
    icon: string)

  datatype DailyWeather = DailyWeather(
    date: string,
    tempHigh: int,
    tempLow: int,
    description: string,
    icon: string,
    humidity: real,
    chanceOfRain: real,
    windSpeed: int)

  datatype WeatherData = WeatherData(
    location: string,
    current: Current,
    astronomy: Astronomy,
    hourly: seq<HourlyWeather>,
    daily: seq<DailyWeather>)

  const KeySeparator: string := ", "

  /** The identity key `${name}, ${country}` used for pinning, for the
      snapshot cache and as the `location` label of a snapshot. */
  function Key(name: string, country: string): string {
    name + KeySeparator + country
  }

  function LocationKey(l: Location): string {
    Key(l.name, l.country)
  }
}
