/** The logic the `App` component (src/App.tsx) carries itself rather than
    taking from the hooks: its own icon selector and pinned-list
    operations, the temperature display, the refresh that rebuilds the
    snapshot cache, the location-select transition and the loader that
    migrates the legacy storage format. */
module App {
  import opened Wrappers
  import opened Text
  import opened Types
  import opened Json
  import WeatherUtils
  import PinnedLocations

  // ---------------------------------------------------------------------
  // Icon (the component's own copy of the selector)

  /** The module-level `getWeatherIcon` of the component, returning the
      emoji text itself. */
  function AppWeatherIcon(conditionText: string, iconUrl: string): string {
    AppIconText(ToLower(conditionText), Contains(iconUrl, "/night/"))
  }

  /** Its rule chain on the lower-cased text. */
  function AppIconText(c: string, isNight: bool): string {
    if Contains(c, "clear") || Contains(c, "sunny") then (if isNight then "🌙" else "☀️")
    else if Contains(c, "partly cloudy") || Contains(c, "partly overcast") then (if isNight then "☁️" else "⛅")
    else if Contains(c, "cloudy") || Contains(c, "overcast") then "☁️"
    else if Contains(c, "mist") || Contains(c, "fog") || Contains(c, "haze") then "🌫️"
    else if Contains(c, "heavy rain") || Contains(c, "torrential") || Contains(c, "moderate rain") then "🌧️"
    else if Contains(c, "patchy rain") || Contains(c, "light rain") || Contains(c, "drizzle") then "🌦️"
    else if Contains(c, "rain") || Contains(c, "shower") then "🌧️"
    else if Contains(c, "thunder") || Contains(c, "storm") || Contains(c, "lightning") then "⛈️"
    else if Contains(c, "heavy snow") || Contains(c, "blizzard") then "🌨️"
    else if Contains(c, "patchy snow") || Contains(c, "light snow") || Contains(c, "snow") then "❄️"
    else if Contains(c, "sleet") || Contains(c, "ice pellets") then "🧊"
    else if Contains(c, "hail") then "🧊"
    else if Contains(c, "windy") || Contains(c, "gale") || Contains(c, "breezy") then "💨"
    else if Contains(c, "freezing") then "🧊"
    else if isNight then "🌙" else "🌤️"
  }

  lemma AppIconTextAgrees(c: string, isNight: bool)
    ensures AppIconText(c, isNight) == WeatherUtils.IconFor(c, isNight).Glyph()
  {
    var g := AppIconText(c, isNight);
    if WeatherUtils.SaysClear(c) {
      assert g == (if isNight then "🌙" else "☀️");
    } else if WeatherUtils.SaysPartly(c) {
      assert g == (if isNight then "☁️" else "⛅");
    } else if WeatherUtils.SaysCloud(c) {
      assert g == "☁️";
    } else if WeatherUtils.SaysFog(c) {
      assert g == "🌫️";
    } else if WeatherUtils.SaysHeavyRain(c) {
      assert g == "🌧️";
    } else if WeatherUtils.SaysLightRain(c) {
      assert g == "🌦️";
    } else if WeatherUtils.SaysRainOrShower(c) {
      assert g == "🌧️";
    } else if WeatherUtils.SaysStorm(c) {
      assert g == "⛈️";
    } else if WeatherUtils.SaysHeavySnow(c) {
      assert g == "🌨️";
    } else if WeatherUtils.SaysAnySnow(c) {
      assert g == "❄️";
    } else if WeatherUtils.SaysSleet(c) || Contains(c, "hail") {
      assert g == "🧊";
    } else if WeatherUtils.SaysWind(c) {
      assert g == "💨";
    } else if Contains(c, "freezing") {
      assert g == "🧊";
    } else {
      assert g == (if isNight then "🌙" else "🌤️");
    }
  }

  /** The component's copy agrees with the shared selector on every input. */
  lemma AppIconAgrees(conditionText: string, iconUrl: string)
    ensures AppWeatherIcon(conditionText, iconUrl) == WeatherUtils.GetWeatherIcon(conditionText, iconUrl).Glyph()
  {
    AppIconTextAgrees(ToLower(conditionText), Contains(iconUrl, "/night/"));
  }

  // ---------------------------------------------------------------------
  // Temperature display

  datatype Unit = C | F {
    function Letter(): string {
      match this
      case C => "C"
      case F => "F"
    }

    /** `toggleTemperatureUnit` */
    function Toggle(): (u: Unit)
      ensures u != this
    {
      if this == C then F else C
    }
  }

  /** `convertTemperature` for an integer Celsius reading: the identity in
      Celsius, the nearest integer (halves up) to `9c/5 + 32` in
      Fahrenheit. */
  function ConvertTemperature(tempC: int, unit: Unit): (r: int)
    ensures unit == C ==> r == tempC
    ensures unit == F ==> r as real - 0.5 <= tempC as real * 9.0 / 5.0 + 32.0 < r as real + 0.5
  {
    if unit == F then Round(tempC as real * 9.0 / 5.0 + 32.0) else tempC
  }

  /** For integer input the conversion is exact integer arithmetic:
      `floor((18c + 325) / 10)`. */
  lemma FahrenheitIsIntegerArithmetic(tempC: int)
    ensures ConvertTemperature(tempC, F) == (18 * tempC + 325) / 10
  {
    var r := ConvertTemperature(tempC, F);
    var q := (18 * tempC + 325) / 10;
    assert 10 * q <= 18 * tempC + 325 < 10 * q + 10;
    assert (r as real) * 10.0 - 5.0 <= (18 * tempC + 320) as real < (r as real) * 10.0 + 5.0;
    assert 10 * r <= 18 * tempC + 325 < 10 * r + 10;
  }

  lemma FahrenheitLandmarks()
    ensures ConvertTemperature(0, F) == 32
    ensures ConvertTemperature(-40, F) == -40
    ensures ConvertTemperature(100, F) == 212
    ensures ConvertTemperature(37, F) == 99
  {
    FahrenheitIsIntegerArithmetic(0);
    FahrenheitIsIntegerArithmetic(-40);
    FahrenheitIsIntegerArithmetic(100);
    FahrenheitIsIntegerArithmetic(37);
  }

  /** A warmer reading never shows a lower Fahrenheit figure. */
  lemma FahrenheitMonotone(c1: int, c2: int)
    requires c1 <= c2
    ensures ConvertTemperature(c1, F) <= ConvertTemperature(c2, F)
  {
    FahrenheitIsIntegerArithmetic(c1);
    FahrenheitIsIntegerArithmetic(c2);
  }

  /** Toggling twice restores the unit. */
  lemma ToggleInvolution(u: Unit)
    ensures u.Toggle().Toggle() == u
  {
  }

  const Degree: string := "°"

  /** `formatTemperature`: the converted number, a degree sign and the
      unit letter. */
  function FormatTemperature(tempC: int, unit: Unit): (r: string)
    ensures |r| > 2 && r[|r| - 2..] == Degree + unit.Letter()
    ensures ToNumber(r[..|r| - 2]) == Int(ConvertTemperature(tempC, unit))
  {
    var v := ConvertTemperature(tempC, unit);
    var suffix := Degree + unit.Letter();
    NumberThenSuffix(v, suffix);
    IntToString(v) + suffix
  }

  /** The digits of `v` followed by a two-character suffix read back as `v`
      once the suffix is cut off. */
  lemma NumberThenSuffix(v: int, suffix: string)
    requires |suffix| == 2
    ensures var r := IntToString(v) + suffix;
      |r| > 2 && r[|r| - 2..] == suffix && ToNumber(r[..|r| - 2]) == Int(v)
  {
    var n := IntToString(v);
    IntToStringRoundTrip(v);
    assert |n| > 0;
    var r := n + suffix;
    assert r[..|r| - 2] == n;
    assert r[|r| - 2..] == suffix;
  }

  // ---------------------------------------------------------------------
  // Pinned list (the component's own copy)

  predicate SameNameAndCountry(a: Location, b: Location) {
    a.name == b.name && a.country == b.country
  }

  /** `pinnedLocations.some(p => p.name === l.name && p.country === l.country)` */
  predicate AnySameNameAndCountry(pinned: seq<Location>, l: Location) {
    if pinned == [] then false
    else SameNameAndCountry(pinned[0], l) || AnySameNameAndCountry(pinned[1..], l)
  }

  lemma {:induction false} AnySameIff(pinned: seq<Location>, l: Location)
    ensures AnySameNameAndCountry(pinned, l) <==> exists i :: 0 <= i < |pinned| && SameNameAndCountry(pinned[i], l)
  {
    if pinned != [] {
      AnySameIff(pinned[1..], l);
      if SameNameAndCountry(pinned[0], l) {
        assert 0 < |pinned| && SameNameAndCountry(pinned[0], l);
      }
      if exists i :: 0 <= i < |pinned[1..]| && SameNameAndCountry(pinned[1..][i], l) {
        var i :| 0 <= i < |pinned[1..]| && SameNameAndCountry(pinned[1..][i], l);
        assert SameNameAndCountry(pinned[i + 1], l);
      }
      if exists i :: 0 <= i < |pinned| && SameNameAndCountry(pinned[i], l) {
        var i :| 0 <= i < |pinned| && SameNameAndCountry(pinned[i], l);
        if i > 0 {
          assert SameNameAndCountry(pinned[1..][i - 1], l);
        }
      }
    }
  }

  /** The component's `pinLocation`: nothing without a current location or
      when an entry has the same name and the same country; otherwise the
      current location is appended. */
  function AppPin(pinned: seq<Location>, current: Option<Location>): (r: seq<Location>)
    ensures current.None? ==> r == pinned
    ensures current.Some? && (exists i :: 0 <= i < |pinned| && SameNameAndCountry(pinned[i], current.value)) ==> r == pinned
    ensures current.Some? && !(exists i :: 0 <= i < |pinned| && SameNameAndCountry(pinned[i], current.value)) ==>
      r == pinned + [current.value]
  {
    match current
    case None => pinned
    case Some(l) =>
      AnySameIff(pinned, l);
      if AnySameNameAndCountry(pinned, l) then pinned else pinned + [l]
  }

  /** Equal fields give equal keys, so whenever the hook's `pinLocation`
      would append, so does the component's. */
  lemma AppPinAppendsWhenHookDoes(pinned: seq<Location>, l: Location)
    requires PinnedLocations.PinLocation(pinned, l).0
    ensures AppPin(pinned, Some(l)) == PinnedLocations.PinLocation(pinned, l).1
  {
    if exists i :: 0 <= i < |pinned| && SameNameAndCountry(pinned[i], l) {
      var i :| 0 <= i < |pinned| && SameNameAndCountry(pinned[i], l);
      assert PinnedLocations.HasKeyAt(pinned, LocationKey(l), i);
    }
  }

  /** The converse fails: two locations can share a key without sharing
      name and country, and then the component appends a second entry
      under a key that is already pinned. */
  lemma FieldComparisonIsNotKeyComparison()
    ensures var a := Location("Paris, TX", "US", None, 0.0, 0.0);
      var b := Location("Paris", "TX, US", None, 0.0, 0.0);
      LocationKey(a) == LocationKey(b)
      && AppPin([a], Some(b)) == [a, b]
      && !PinnedLocations.NoDuplicateKeys(AppPin([a], Some(b)))
  {
    var a := Location("Paris, TX", "US", None, 0.0, 0.0);
    var b := Location("Paris", "TX, US", None, 0.0, 0.0);
    assert !SameNameAndCountry(a, b);
    assert LocationKey(a) == LocationKey(b);
    var r := AppPin([a], Some(b));
    assert r[0] == a && r[1] == b;
  }

  /** The component's `isLocationPinned`: some entry's key is `key`. */
  predicate AppIsPinned(pinned: seq<Location>, key: string) {
    exists i :: 0 <= i < |pinned| && LocationKey(pinned[i]) == key
  }

  /** It agrees with the hook's membership test. */
  lemma AppIsPinnedAgrees(pinned: seq<Location>, key: string)
    ensures AppIsPinned(pinned, key) <==> PinnedLocations.IsLocationPinned(pinned, key)
  {
    PinnedLocations.IsLocationPinnedIff(pinned, key);
    if AppIsPinned(pinned, key) {
      var i :| 0 <= i < |pinned| && LocationKey(pinned[i]) == key;
      assert PinnedLocations.HasKeyAt(pinned, key, i);
    }
  }

  /** The component's `unpinLocation`: drop the entries with that key and
      the cached snapshot under it. */
  function AppUnpin(pinned: seq<Location>, snapshots: map<string, WeatherData>, key: string)
    : (r: (seq<Location>, map<string, WeatherData>))
    ensures r.0 == PinnedLocations.UnpinLocation(pinned, key)
    ensures !AppIsPinned(r.0, key)
    ensures key !in r.1
    ensures forall k :: k != key ==> (k in r.1 <==> k in snapshots)
    ensures forall k :: k in r.1 ==> r.1[k] == snapshots[k]
  {
    PinnedLocations.UnpinRemovesKey(pinned, key);
    AppIsPinnedAgrees(PinnedLocations.UnpinLocation(pinned, key), key);
    (PinnedLocations.UnpinLocation(pinned, key), snapshots - {key})
  }

  // ---------------------------------------------------------------------
  // Refresh

  /** Whether the `i`-th pinned fetch succeeded under key `k`. */
  predicate Delivered(pinned: seq<Location>, outcomes: seq<Option<WeatherData>>, i: int, k: string) {
    0 <= i < |pinned| && i < |outcomes| && outcomes[i].Some? && LocationKey(pinned[i]) == k
  }

  /** The snapshot map `refreshWeatherData` builds from the settled fetches,
      `outcomes[i]` belonging to `pinned[i]` (`None` for a failure). The
      results are visited in order, so a later entry under the same key
      overrides an earlier one. */
  function RebuildSnapshots(pinned: seq<Location>, outcomes: seq<Option<WeatherData>>)
    : (m: map<string, WeatherData>)
    requires |outcomes| == |pinned|
    ensures forall k :: k in m <==> exists i :: Delivered(pinned, outcomes, i, k)
  {
    var m := Rebuild(pinned, outcomes);
    forall k ensures k in m <==> exists i :: Delivered(pinned, outcomes, i, k) {
      RebuildAt(pinned, outcomes, k);
    }
    m
  }

  function Rebuild(pinned: seq<Location>, outcomes: seq<Option<WeatherData>>): map<string, WeatherData>
    requires |outcomes| == |pinned|
  {
    if pinned == [] then map[]
    else
      var n := |pinned| - 1;
      var m := Rebuild(pinned[..n], outcomes[..n]);
      if outcomes[n].Some? then m[LocationKey(pinned[n]) := outcomes[n].value] else m
  }

  /** The `i`-th fetch is the last one that delivered under `k`. */
  predicate LastDelivered(pinned: seq<Location>, outcomes: seq<Option<WeatherData>>, i: int, k: string) {
    Delivered(pinned, outcomes, i, k)
    && forall j :: i < j < |pinned| ==> !Delivered(pinned, outcomes, j, k)
  }

  /** A key is in the rebuilt map iff some fetch delivered under it, and
      it holds the snapshot of the last such fetch. */
  lemma {:induction false} RebuildAt(pinned: seq<Location>, outcomes: seq<Option<WeatherData>>, k: string)
    requires |outcomes| == |pinned|
    ensures var m := Rebuild(pinned, outcomes);
      (k in m <==> exists i :: Delivered(pinned, outcomes, i, k))
      && (k in m ==> exists i :: LastDelivered(pinned, outcomes, i, k) && outcomes[i] == Some(m[k]))
  {
    if pinned != [] {
      var n := |pinned| - 1;
      var p, o := pinned[..n], outcomes[..n];
      RebuildAt(p, o, k);
      var m := Rebuild(pinned, outcomes);
      var m0 := Rebuild(p, o);
      assert forall i :: 0 <= i < n ==> (Delivered(p, o, i, k) <==> Delivered(pinned, outcomes, i, k));
      if Delivered(pinned, outcomes, n, k) {
        assert LastDelivered(pinned, outcomes, n, k);
      } else {
        assert m == m0 || (outcomes[n].Some? && LocationKey(pinned[n]) != k && m == m0[LocationKey(pinned[n]) := outcomes[n].value]);
        if k in m {
          var i :| LastDelivered(p, o, i, k) && o[i] == Some(m0[k]);
          assert LastDelivered(pinned, outcomes, i, k);
        }
        if exists i :: Delivered(pinned, outcomes, i, k) {
          var i :| Delivered(pinned, outcomes, i, k);
          assert Delivered(p, o, i, k);
        }
      }
    }
  }

  /** The value half of the rebuild: each key holds its last delivered
      snapshot. */
  lemma RebuildLastWins(pinned: seq<Location>, outcomes: seq<Option<WeatherData>>, k: string)
    requires |outcomes| == |pinned|
    requires k in RebuildSnapshots(pinned, outcomes)
    ensures exists i :: LastDelivered(pinned, outcomes, i, k) && outcomes[i] == Some(RebuildSnapshots(pinned, outcomes)[k])
  {
    RebuildAt(pinned, outcomes, k);
  }

  /** The component's state that refresh and select touch. */
  datatype AppState = AppState(
    query: string,
    locations: seq<Location>,
    weather: Option<WeatherData>,
    currentLocation: Option<Location>,
    loading: bool,
    error: Option<string>,
    pinned: seq<Location>,
    snapshots: map<string, WeatherData>,
    unit: Unit)

  /** `refreshWeatherData` once every fetch has settled. `currentOutcome`
      is the current location's fetch (ignored when there is none); a
      failure there keeps the shown weather, and the snapshot cache is
      replaced by the rebuilt map. */
  function Refresh(s: AppState, currentOutcome: Option<WeatherData>, outcomes: seq<Option<WeatherData>>)
    : (r: AppState)
    requires |outcomes| == |s.pinned|
    ensures s.currentLocation.None? || currentOutcome.None? ==> r.weather == s.weather
    ensures s.currentLocation.Some? && currentOutcome.Some? ==> r.weather == currentOutcome
    ensures r.snapshots == RebuildSnapshots(s.pinned, outcomes)
    ensures r == s.(weather := r.weather, snapshots := r.snapshots)
  {
    var weather := if s.currentLocation.Some? && currentOutcome.Some? then currentOutcome else s.weather;
    s.(weather := weather, snapshots := RebuildSnapshots(s.pinned, outcomes))
  }

  /** After a refresh the cache holds exactly the pinned keys whose fetch
      succeeded; a key whose fetch failed is dropped, not kept. */
  lemma RefreshDropsFailures(s: AppState, currentOutcome: Option<WeatherData>, outcomes: seq<Option<WeatherData>>, k: string)
    requires |outcomes| == |s.pinned|
    requires forall i :: 0 <= i < |s.pinned| && LocationKey(s.pinned[i]) == k ==> outcomes[i].None?
    ensures k !in Refresh(s, currentOutcome, outcomes).snapshots
  {
  }

  // ---------------------------------------------------------------------
  // Location select

  const SelectFailedMessage: string := "Failed to load weather data. Please try again."

  /** The synchronous start of `handleLocationSelect`. */
  function SelectBegin(s: AppState): (r: AppState)
    ensures r.loading && r.error.None? && r.locations == [] && r.query == ""
    ensures r.weather == s.weather && r.currentLocation == s.currentLocation
      && r.pinned == s.pinned && r.snapshots == s.snapshots && r.unit == s.unit
  {
    s.(loading := true, error := None, locations := [], query := "")
  }

  /** The end of `handleLocationSelect`, once the fetch for `location` has
      settled (`None` for a failure). */
  function SelectEnd(s: AppState, location: Location, outcome: Option<WeatherData>): (r: AppState)
    ensures !r.loading
    ensures outcome.Some? ==> r.weather == outcome && r.currentLocation == Some(location) && r.error == s.error
    ensures outcome.None? ==>
      r.weather == s.weather && r.currentLocation == s.currentLocation && r.error == Some(SelectFailedMessage)
    ensures r.query == s.query && r.locations == s.locations && r.pinned == s.pinned
      && r.snapshots == s.snapshots && r.unit == s.unit
  {
    match outcome
    case Some(data) => s.(weather := Some(data), currentLocation := Some(location), loading := false)
    case None => s.(error := Some(SelectFailedMessage), loading := false)
  }

  /** With nothing else happening in between: results, query and error are
      cleared, loading ends false, and the selection either takes effect
      in full or reports the failure and keeps what was shown. */
  lemma SelectOutcome(s: AppState, location: Location, outcome: Option<WeatherData>)
    ensures var r := SelectEnd(SelectBegin(s), location, outcome);
      r.query == "" && r.locations == [] && !r.loading
      && (outcome.Some? ==> r.error.None? && r.weather == outcome && r.currentLocation == Some(location))
      && (outcome.None? ==> r.error == Some(SelectFailedMessage) && r.weather == s.weather
                            && r.currentLocation == s.currentLocation)
      && r.pinned == s.pinned && r.snapshots == s.snapshots
  {
  }

  // ---------------------------------------------------------------------
  // Legacy load

  /** An element the component's loader keeps the list for: an object
      with a truthy `name` and `country` and no truthy `current`. */
  predicate FirstUsable(o: Json) {
    o.JObj?
    && !TruthyField(Field(o.fields, "current"))
    && TruthyField(Field(o.fields, "name"))
    && TruthyField(Field(o.fields, "country"))
  }

  /** What the component's loader accepts: any value whose `length` is
      positive and whose `[0]` is usable. Other elements are not looked
      at, and the value need not be an array: an object with a positive
      `length` and a usable `"0"` passes. */
  predicate LegacyAccepts(j: Json) {
    LengthPositive(j) && Index0(j).Some? && FirstUsable(Index0(j).value)
  }

  /** The component's initial pinned list. Every value the two checks do
      not accept ends in the reset path: a truthy `current` migrates, a
      missing `name` or `country` falls through, and reading a property of
      `undefined` or `null` throws into the catch block; each removes the
      stored entry and starts empty. */
  function LegacyLoad(stored: Option<string>, parse: string -> Option<Json>): (r: PinnedLocations.Loaded)
    ensures stored.None? || stored == Some("") ==> r == PinnedLocations.Loaded(EmptyArray, false)
    ensures stored.Some? && stored.value != "" ==>
      (r.clearStored <==> !(parse(stored.value).Some? && LegacyAccepts(parse(stored.value).value)))
      && (r.clearStored ==> r.pinned == EmptyArray)
      && (!r.clearStored ==> parse(stored.value).Some? && r.pinned == parse(stored.value).value)
  {
    if stored.None? || stored.value == "" then PinnedLocations.Loaded(EmptyArray, false)
    else match parse(stored.value)
      case None => PinnedLocations.Loaded(EmptyArray, true)
      case Some(parsed) =>
        if LegacyAccepts(parsed) then PinnedLocations.Loaded(parsed, false)
        else PinnedLocations.Loaded(EmptyArray, true)
  }

  /** Where the loaders agree: a non-empty list the hook keeps is kept by
      the component too when its first element is usable. */
  lemma HookKeptIsLegacyKept(stored: Option<string>, parse: string -> Option<Json>)
    ensures var h := PinnedLocations.LoadPinned(stored, parse);
      !h.clearStored && h.pinned.JArr? && |h.pinned.items| > 0 && FirstUsable(h.pinned.items[0])
      ==> LegacyLoad(stored, parse) == h
  {
  }

  /** What the component keeps always starts with an element the hook's
      check would accept, and an empty list is never kept from storage. */
  lemma LegacyKeptIsShaped(stored: Option<string>, parse: string -> Option<Json>)
    requires stored.Some? && stored.value != ""
    ensures var c := LegacyLoad(stored, parse);
      !c.clearStored ==> Index0(c.pinned).Some? && PinnedLocations.ItemShaped(Index0(c.pinned).value)
  {
  }

  /** An array-like object is kept by the component and reset by the hook. */
  lemma ArrayLikeObjectKept()
    ensures var good := JObj([("name", JStr("Oslo")), ("country", JStr("Norway"))]);
      var like := JObj([("length", JNum(1.0)), ("0", good)]);
      var parse := (s: string) => Some(like);
      LegacyLoad(Some("o"), parse) == PinnedLocations.Loaded(like, false)
      && PinnedLocations.LoadPinned(Some("o"), parse) == PinnedLocations.Loaded(EmptyArray, true)
  {
    var good := JObj([("name", JStr("Oslo")), ("country", JStr("Norway"))]);
    var like := JObj([("length", JNum(1.0)), ("0", good)]);
    assert Field(like.fields, "0") == Some(good);
    assert Field(like.fields, "length") == Some(JNum(1.0));
    assert Field(good.fields, "current") == None;
    assert Field(good.fields, "name") == Some(JStr("Oslo"));
    assert Field(good.fields, "country") == Some(JStr("Norway"));
  }

  /** The two loaders disagree: the component accepts a list whose second
      element is malformed, which the hook resets, and it resets an empty
      list, which the hook keeps. */
  lemma LegacyLoadDiffersFromHook()
    ensures var good := JObj([("name", JStr("Oslo")), ("country", JStr("Norway"))]);
      var mixed := JArr([good, JNum(1.0)]);
      var parse := (s: string) => if s == "m" then Some(mixed) else Some(EmptyArray);
      LegacyLoad(Some("m"), parse) == PinnedLocations.Loaded(mixed, false)
      && PinnedLocations.LoadPinned(Some("m"), parse) == PinnedLocations.Loaded(EmptyArray, true)
      && LegacyLoad(Some("[]"), parse) == PinnedLocations.Loaded(EmptyArray, true)
      && PinnedLocations.LoadPinned(Some("[]"), parse) == PinnedLocations.Loaded(EmptyArray, false)
  {
    var good := JObj([("name", JStr("Oslo")), ("country", JStr("Norway"))]);
    var mixed := JArr([good, JNum(1.0)]);
    assert Field(good.fields, "current") == None;
    assert Field(good.fields, "name") == Some(JStr("Oslo"));
    assert Field(good.fields, "country") == Some(JStr("Norway"));
    assert !PinnedLocations.ItemShaped(mixed.items[1]);
  }
}
