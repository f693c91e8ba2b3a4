/** The `useWeatherData` hook (src/hooks/useWeatherData.ts) as a state
    machine over per-key maps. `fetchWeather` splits into its synchronous
    start and the settlement of its request; requests are named by
    tokens, their index in the log of started fetches. */
module WeatherDataHook {
  import opened Wrappers
  import opened Text
  import opened Types
  import WeatherApi

  // ---------------------------------------------------------------------
  // Keys

  /** The hook's `getLocationKey`: the shared identity key. */
  function HookKey(l: Location): (k: string)
    ensures k == l.name + ", " + l.country
    ensures k == LocationKey(l)
  {
    Key(l.name, l.country)
  }

  /** What `refreshAll` rebuilds from a key: `const [name, country] =
      key.split(', ')`, with `country` undefined when there is no
      separator. The rebuilt object has no coordinates: `lat` and `lon`
      are undefined. */
  datatype Target = Target(name: string, country: Option<string>, lat: Option<real>, lon: Option<real>)

  function KeyParts(key: string): (t: Target)
    ensures !Contains(t.name, KeySeparator)
    ensures t.country.Some? ==> !Contains(t.country.value, KeySeparator)
    ensures t.lat.None? && t.lon.None?
  {
    var parts := Split(key, KeySeparator);
    Target(parts[0], if |parts| > 1 then Some(parts[1]) else None, None, None)
  }

  /** No occurrence of ", " can start inside `a` and run into the separator
      appended to it unless `a` already contains one. */
  lemma NoStraddle(a: string)
    requires !Contains(a, KeySeparator)
    ensures forall j :: 0 <= j < |a| ==> !OccursAt(a + KeySeparator, KeySeparator, j)
  {
    var s := a + KeySeparator;
    forall j | 0 <= j < |a|
      ensures !OccursAt(s, KeySeparator, j)
    {
      if j + 2 <= |a| {
        assert s[j..j + 2] == a[j..j + 2];
        if OccursAt(s, KeySeparator, j) {
          ContainsInfix(a, KeySeparator, j);
        }
      } else {
        assert j + 1 == |a|;
        assert s[j + 1] == ',';
        assert s[j..j + 2][1] == s[j + 1];
      }
    }
  }

  /** Splitting a key gives back its name and country exactly when neither
      contains ", ". */
  lemma KeyRoundTrip(name: string, country: string)
    ensures KeyParts(Key(name, country)) == Target(name, Some(country), None, None)
      <==> !Contains(name, KeySeparator) && !Contains(country, KeySeparator)
  {
    if !Contains(name, KeySeparator) && !Contains(country, KeySeparator) {
      NoStraddle(name);
      SplitAfterPrefix(name, KeySeparator, country);
      SplitNone(country, KeySeparator);
    }
  }

  /** The rebuild is lossy: when the name itself holds one ", " (as in
      "Washington, D.C."), its second half is taken for the country and
      the real country is lost. */
  lemma CommaInNameLosesCountry(a: string, b: string, country: string)
    requires !Contains(a, KeySeparator) && !Contains(b, KeySeparator)
    ensures KeyParts(Key(a + KeySeparator + b, country)) == Target(a, Some(b), None, None)
  {
    assert Key(a + KeySeparator + b, country) == a + KeySeparator + (b + KeySeparator + country);
    NoStraddle(a);
    SplitAfterPrefix(a, KeySeparator, b + KeySeparator + country);
    NoStraddle(b);
    SplitAfterPrefix(b, KeySeparator, country);
  }

  /** The targets `refreshAll` fetches, in the order of the keys. */
  function RefreshTargets(keys: seq<string>): (r: seq<Target>)
    ensures |r| == |keys|
    ensures forall i :: 0 <= i < |keys| ==> r[i] == KeyParts(keys[i])
  {
    seq(|keys|, i requires 0 <= i < |keys| => KeyParts(keys[i]))
  }

  /** The `q` parameter the forecast request of a target carries, `show`
      being JavaScript's number-to-text conversion. */
  function TargetQuery(t: Target, show: real -> string): string {
    WeatherApi.ForecastQuery(t.lat, t.lon, show)
  }

  /** As written, every refresh asks for `q=undefined,undefined`: the
      rebuilt targets carry no coordinates, so no refresh names the place
      whose key it came from. */
  lemma RefreshQueriesAsWritten(keys: seq<string>, show: real -> string)
    ensures forall i :: 0 <= i < |keys| ==> TargetQuery(RefreshTargets(keys)[i], show) == "undefined,undefined"
  {
    forall i | 0 <= i < |keys|
      ensures TargetQuery(RefreshTargets(keys)[i], show) == "undefined,undefined"
    {
      var t := RefreshTargets(keys)[i];
      assert t.lat.None? && t.lon.None?;
      WeatherApi.NoPlaceText(show);
    }
  }

  // ---------------------------------------------------------------------
  // State

  datatype HookState = HookState(
    weatherData: map<string, WeatherData>,
    loading: map<string, bool>,
    error: map<string, Option<string>>,
    /** `abortControllersRef`: the token of the controller held per key. */
    controllers: map<string, nat>,
    /** Tokens whose controller has been aborted. */
    aborted: set<nat>,
    /** Tokens whose request has not settled. */
    pending: set<nat>,
    /** The key of every fetch started, in order. */
    started: seq<string>,
    /** The location each key was last fetched for; the hook as written
        keeps only the key, and the corrected refresh reads from here. */
    places: map<string, Location>)

  function Init(): (s: HookState)
    ensures s.weatherData == map[] && s.controllers == map[] && s.started == [] && s.places == map[]
  {
    HookState(map[], map[], map[], map[], {}, {}, [], map[])
  }

  /** The synchronous part of `fetchWeather(location)`: abort the key's
      previous controller, install a new one, mark the key loading and
      clear its error. */
  function Start(s: HookState, location: Location): (r: HookState)
    ensures var k := LocationKey(location);
      r.loading == s.loading[k := true] && r.error == s.error[k := None]
      && r.weatherData == s.weatherData
      && r.controllers == s.controllers[k := |s.started|]
      && (k in s.controllers ==> s.controllers[k] in r.aborted)
      && r.started == s.started + [k] && r.pending == s.pending + {|s.started|}
      && r.places == s.places[k := location]
  {
    var k := HookKey(location);
    var aborted := if k in s.controllers then s.aborted + {s.controllers[k]} else s.aborted;
    var t := |s.started|;
    s.(controllers := s.controllers[k := t], aborted := aborted, pending := s.pending + {t},
       started := s.started + [k], loading := s.loading[k := true], error := s.error[k := None],
       places := s.places[k := location])
  }

  /** The writes of a settling request `t` for key `k`: none if it was
      aborted; otherwise the data on success or the error on failure, and
      `loading` false. */
  function Commit(s: HookState, t: nat, k: string, outcome: Result<WeatherData, string>): (r: HookState)
    ensures t in s.aborted ==> r == s
    ensures t !in s.aborted && outcome.Ok? ==>
      r == s.(weatherData := s.weatherData[k := outcome.value], loading := s.loading[k := false])
    ensures t !in s.aborted && outcome.Err? ==>
      r == s.(error := s.error[k := Some(outcome.error)], loading := s.loading[k := false])
  {
    if t in s.aborted then s
    else match outcome
      case Ok(data) => s.(weatherData := s.weatherData[k := data], loading := s.loading[k := false])
      case Err(message) => s.(error := s.error[k := Some(message)], loading := s.loading[k := false])
  }

  /** What `fetchWeather` resolves to. */
  function FetchResult(s: HookState, t: nat, outcome: Result<WeatherData, string>): (r: Option<WeatherData>)
    ensures r.Some? <==> t !in s.aborted && outcome.Ok?
    ensures r.Some? ==> r.value == outcome.value
  {
    if t !in s.aborted && outcome.Ok? then Some(outcome.value) else None
  }

  /** Settlement as written: the `finally` block deletes the key's
      controller whatever it is, even when it belongs to a later request. */
  function SettleAsWritten(s: HookState, t: nat, outcome: Result<WeatherData, string>): (r: HookState)
    requires t < |s.started|
    ensures r.controllers == s.controllers - {s.started[t]}
  {
    var k := s.started[t];
    Commit(s, t, k, outcome).(controllers := s.controllers - {k}, pending := s.pending - {t})
  }

  /** Settlement with the deletion guarded: the controller is dropped only
      while it is still this request's own. */
  function Settle(s: HookState, t: nat, outcome: Result<WeatherData, string>): (r: HookState)
    requires t < |s.started|
    ensures var k := s.started[t];
      r.controllers == if k in s.controllers && s.controllers[k] == t then s.controllers - {k} else s.controllers
  {
    var k := s.started[t];
    var keep := if k in s.controllers && s.controllers[k] == t then s.controllers - {k} else s.controllers;
    Commit(s, t, k, outcome).(controllers := keep, pending := s.pending - {t})
  }

  /** `clearError(key)`: the key's error is null and nothing else changes. */
  function ClearError(s: HookState, key: string): (r: HookState)
    ensures key in r.error && r.error[key] == None
    ensures forall k :: k != key ==> (k in r.error <==> k in s.error) && (k in r.error ==> r.error[k] == s.error[k])
    ensures r == s.(error := r.error)
  {
    s.(error := s.error[key := None])
  }

  // ---------------------------------------------------------------------
  // Refreshing with the locations kept

  /** Every remembered location sits under its own key, and every key
      fetched, so every key with data, has one. */
  predicate PlacesInv(s: HookState) {
    (forall k :: k in s.places ==> LocationKey(s.places[k]) == k)
    && (forall t :: 0 <= t < |s.started| ==> s.started[t] in s.places)
    && (forall k :: k in s.weatherData ==> k in s.places)
  }

  lemma InitPlacesInv()
    ensures PlacesInv(Init())
  {
  }

  lemma StartPlacesInv(s: HookState, location: Location)
    requires PlacesInv(s)
    ensures PlacesInv(Start(s, location))
  {
  }

  lemma SettlePlacesInv(s: HookState, t: nat, outcome: Result<WeatherData, string>)
    requires PlacesInv(s) && t < |s.started|
    ensures PlacesInv(Settle(s, t, outcome))
    ensures PlacesInv(SettleAsWritten(s, t, outcome))
  {
  }

  /** The corrected `refreshAll`: each stored key is fetched again for the
      location it was fetched for, coordinates included. */
  function RefreshLocations(s: HookState, keys: seq<string>): (r: seq<Location>)
    requires PlacesInv(s)
    requires forall i :: 0 <= i < |keys| ==> keys[i] in s.weatherData
    ensures |r| == |keys|
    ensures forall i :: 0 <= i < |keys| ==> LocationKey(r[i]) == keys[i]
  {
    seq(|keys|, i requires 0 <= i < |keys| => s.places[keys[i]])
  }

  /** The corrected refresh re-fetches each key it names, and its request
      names a place: unlike the code as written, no query is
      `undefined,undefined`. */
  lemma RefreshKeepsPlaces(s: HookState, keys: seq<string>, show: real -> string)
    requires PlacesInv(s)
    requires forall i :: 0 <= i < |keys| ==> keys[i] in s.weatherData
    requires forall x :: !Contains(show(x), ",")
    requires forall x :: show(x) != "undefined"
    ensures var r := RefreshLocations(s, keys);
      forall i :: 0 <= i < |keys| ==>
        HookKey(r[i]) == keys[i] && WeatherApi.LocationQuery(r[i], show) != "undefined,undefined"
  {
    var r := RefreshLocations(s, keys);
    WeatherApi.NoPlaceText(show);
    forall i | 0 <= i < |keys|
      ensures WeatherApi.LocationQuery(r[i], show) != "undefined,undefined"
    {
      WeatherApi.NoPlaceIffNoCoordinates(Some(r[i].lat), Some(r[i].lon), show);
    }
  }

  // ---------------------------------------------------------------------
  // Per-key updates

  /** `r` differs from `s` by the success of a fetch for `k` alone. */
  ghost predicate WroteOnlyData(s: HookState, r: HookState, k: string, data: WeatherData) {
    k in r.weatherData && r.weatherData[k] == data && k in r.loading && !r.loading[k] && r.error == s.error
    && forall k' :: k' != k ==>
         (k' in r.weatherData <==> k' in s.weatherData) && (k' in r.weatherData ==> r.weatherData[k'] == s.weatherData[k'])
  }

  /** `r` differs from `s` by the failure of a fetch for `k` alone. */
  predicate WroteOnlyError(s: HookState, r: HookState, k: string, message: string) {
    k in r.error && r.error[k] == Some(message) && k in r.loading && !r.loading[k] && r.weatherData == s.weatherData
  }

  /** Nothing the hook exposes differs between `s` and `r`. */
  predicate ShowsSame(s: HookState, r: HookState) {
    r.weatherData == s.weatherData && r.error == s.error && r.loading == s.loading
  }

  /** A live success writes only the data of its own key, under the
      settlement as written and under the guarded one. */
  lemma SuccessTouchesOnlyItsKey(s: HookState, t: nat, data: WeatherData)
    requires t < |s.started| && t !in s.aborted
    ensures WroteOnlyData(s, SettleAsWritten(s, t, Ok(data)), s.started[t], data)
    ensures WroteOnlyData(s, Settle(s, t, Ok(data)), s.started[t], data)
  {
  }

  /** A live failure sets only the key's error and keeps its data, under
      either settlement. */
  lemma FailureKeepsData(s: HookState, t: nat, message: string)
    requires t < |s.started| && t !in s.aborted
    ensures WroteOnlyError(s, SettleAsWritten(s, t, Err(message)), s.started[t], message)
    ensures WroteOnlyError(s, Settle(s, t, Err(message)), s.started[t], message)
  {
  }

  /** An aborted request writes no data, no error and no loading flag, and
      resolves to null, under either settlement. */
  lemma AbortedWritesNothing(s: HookState, t: nat, outcome: Result<WeatherData, string>)
    requires t < |s.started| && t in s.aborted
    ensures ShowsSame(s, SettleAsWritten(s, t, outcome))
    ensures ShowsSame(s, Settle(s, t, outcome))
    ensures FetchResult(s, t, outcome).None?
  {
  }

  // ---------------------------------------------------------------------
  // Latest request wins (with the guarded deletion)

  /** `t` is the last fetch started for its key. */
  predicate Latest(s: HookState, t: nat) {
    t < |s.started| && forall j :: t < j < |s.started| ==> s.started[j] != s.started[t]
  }

  /** Every request still pending and not aborted is the one whose
      controller its key holds, and a held controller is the latest fetch
      of its key. */
  predicate Inv(s: HookState) {
    (forall t :: t in s.pending ==> t < |s.started|)
    && (forall k :: k in s.controllers ==>
          s.controllers[k] < |s.started| && s.started[s.controllers[k]] == k && Latest(s, s.controllers[k]))
    && (forall t :: t in s.pending && t !in s.aborted ==>
          s.started[t] in s.controllers && s.controllers[s.started[t]] == t)
  }

  lemma InitInv()
    ensures Inv(Init())
  {
  }

  lemma StartInv(s: HookState, location: Location)
    requires Inv(s)
    ensures Inv(Start(s, location))
  {
    var r := Start(s, location);
    var k := LocationKey(location);
    forall k' | k' in r.controllers
      ensures r.controllers[k'] < |r.started| && r.started[r.controllers[k']] == k' && Latest(r, r.controllers[k'])
    {
      if k' != k {
        assert Latest(s, s.controllers[k']);
      }
    }
  }

  lemma SettleInv(s: HookState, t: nat, outcome: Result<WeatherData, string>)
    requires Inv(s) && t in s.pending
    ensures Inv(Settle(s, t, outcome))
  {
  }

  /** Only the latest fetch of a key can change what the hook shows for
      any key. */
  lemma LatestWins(s: HookState, t: nat, outcome: Result<WeatherData, string>)
    requires Inv(s) && t in s.pending
    requires var r := Settle(s, t, outcome);
      r.weatherData != s.weatherData || r.error != s.error || r.loading != s.loading
    ensures Latest(s, t)
  {
  }

  // ---------------------------------------------------------------------
  // The stale write the unguarded deletion allows

  /** Three overlapping fetches of one location under the code as written:
      the first settles after the second has started and deletes the
      second's controller, so the third cannot abort the second, and the
      second's older data overwrites the third's. */
  lemma StaleWriteAsWritten(l: Location, d0: WeatherData, d1: WeatherData, d2: WeatherData)
    ensures var s3 := Start(SettleAsWritten(Start(Start(Init(), l), l), 0, Ok(d0)), l);
      var s5 := SettleAsWritten(SettleAsWritten(s3, 2, Ok(d2)), 1, Ok(d1));
      s5.weatherData[LocationKey(l)] == d1 && !Latest(s3, 1) && Latest(s3, 2)
  {
    var k := LocationKey(l);
    var s1 := Start(Start(Init(), l), l);
    assert s1.started == [k, k] && s1.aborted == {0};
    var s2 := SettleAsWritten(s1, 0, Ok(d0));
    assert s2.controllers == map[] && s2.aborted == {0};
    var s3 := Start(s2, l);
    assert s3.aborted == {0} && s3.started == [k, k, k];
    var s4 := SettleAsWritten(s3, 2, Ok(d2));
    assert s4.weatherData[k] == d2;
    var s5 := SettleAsWritten(s4, 1, Ok(d1));
    assert s5.weatherData[k] == d1;
    assert s3.started[2] == s3.started[1];
  }

  /** The same interleaving with the guarded deletion keeps the newest
      data: the third fetch aborts the second. */
  lemma NoStaleWrite(l: Location, d0: WeatherData, d1: WeatherData, d2: WeatherData)
    ensures var s3 := Start(Settle(Start(Start(Init(), l), l), 0, Ok(d0)), l);
      var s5 := Settle(Settle(s3, 2, Ok(d2)), 1, Ok(d1));
      s5.weatherData[LocationKey(l)] == d2
  {
    var k := LocationKey(l);
    var s1 := Start(Start(Init(), l), l);
    assert s1.started == [k, k] && s1.aborted == {0} && s1.controllers == map[k := 1];
    var s2 := Settle(s1, 0, Ok(d0));
    assert s2.controllers == map[k := 1];
    var s3 := Start(s2, l);
    assert 1 in s3.aborted && s3.started == [k, k, k];
    var s4 := Settle(s3, 2, Ok(d2));
    assert s4.weatherData[k] == d2 && 1 in s4.aborted;
  }
}
