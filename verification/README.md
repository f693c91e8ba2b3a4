# Weather app core in Dafny

A model of the deterministic logic of a React weather application that talks
to the WeatherAPI.com service. Network replies, stored values, JSON parsing,
timers and clock readings are not computed here. They are inputs of the
functions, and the hooks become state machines driven by explicit events.
The modules follow the application's files:

- `WeatherUtils` (weather.dfy) covers the classifiers of `src/utils/weather.ts`:
  - the weather condition;
  - the ten temperature bands;
  - the 12-hour clock parser;
  - the dawn/day/dusk/night period;
  - the emoji icon.
- `PinnedLocations` (pinned_locations.dfy) is the `usePinnedLocations` hook. It covers the validated initial load, and pin, unpin, reorder, membership and clear over a sequence of locations keyed by `name + ", " + country`.
- `App` (app.dfy) covers what `src/App.tsx` does itself:
  - its own icon selector, proved equal to the shared one;
  - the Celsius/Fahrenheit display;
  - its own pin, unpin and membership test;
  - the snapshot-map rebuild after a refresh;
  - the location-select transition;
  - the loader for the legacy storage format.
- `WeatherApi` (weather_api.dfy) is the service layer. It has the search short-circuit and mapping, and the normalisation of a forecast reply: the 24-hour window, the daily list, the defaults and the key. The nested push loop is written as a method and proved equal to the functional window.
- `LocationSearch` (location_search.dfy) is the `useLocationSearch` hook. It is a state machine over the events `SetQuery`, `TimerFire`, `Resolve(token, outcome)` and `ClearResults`.
- `WeatherDataHook` (weather_data.dfy) is the `useWeatherData` hook. It has per-key maps, a `Start` event and a settle event per request token, and the `refreshAll` key split. A `places` map, which the hook as written does not keep, remembers the location of each key for the corrected refresh.
- `SearchBar` (search_bar.dfy) covers the tag-stripping sanitiser and the keyboard-focus machine.
- `WeatherCard` (weather_card.dfy) covers the air-quality label, the wind and precipitation strings, and the forecast toggle.
- `ValidateEnv` (validate_env.dfy) covers the API-key checks.
- Support modules:
  - `Wrappers` provides `Option` and `Result`;
  - `Types` holds the records of `src/types.ts` and the identity key;
  - `Json` is parsed JSON;
  - `Text` holds the JavaScript string and number semantics the code relies on: `toLowerCase`, `includes`, `trim`, `split`, `Number()`, number-to-text and `Math.round`.

JavaScript `Number()` on text is modelled as a datatype `Num = Int(v) | NaN`.
The comparisons of `getTimeOfDay` are false against NaN, as in JavaScript.

Three of the unit tests in `src/utils/weather.test.ts` expect results the code
does not produce. The model follows the code in each case:

- Lines 97-98 expect night at 00:00 and day at 12:00 for sunrise "12:00 AM" and sunset "12:00 PM". The code gives dawn and dusk (`WeatherUtils.MidnightAndNoonEdges`).
- Lines 105, 111 and 140 pass icon paths such as "night/116.png", which do not contain "/night/". The code therefore picks the day icons (`WeatherUtils.RelativeNightPathIsDay`).

## Model

| member | source | states |
|---|---|---|
| WeatherUtils.ConditionFirstMatch | src/utils/weather.ts:1-24 | each condition holds exactly when its keywords occur in the lower-cased text and no earlier group's do; everything else is cloudy |
| WeatherUtils.ConditionIgnoresCase | src/utils/weather.ts:2 | the classifier gives the same category for a text and its lower-cased form |
| WeatherUtils.ClearBeatsStorm | src/utils/weather.ts:4-6 | a text mentioning "clear" is sunny whatever else it says |
| WeatherUtils.TemperatureBandIff | src/utils/weather.ts:26-37 | the band returned is exactly the band whose half-open interval, inclusive at the bottom, holds the temperature |
| WeatherUtils.TemperatureMonotone | src/utils/weather.ts:26-37 | a warmer temperature never lands in a colder band |
| WeatherUtils.TemperatureEdges | src/utils/weather.ts:27-36 | the thresholds are lower-inclusive: 38 is scorching, 37.9 very hot, -1 and -0.5 cold, -7 very cold, -7.1 freezing |
| WeatherUtils.ClockFields | src/utils/weather.ts:40-41 | the split on ' ' and then on ':' cut an "hh:mm AM/PM" reading into hours, minutes and period |
| WeatherUtils.ParseTimeOfFields | src/utils/weather.ts:39-51 | the parser's result depends only on the two split results: the 12-hour adjustment applied to the numbers of the fields |
| WeatherUtils.ParseClock | src/utils/weather.ts:39-51 | a well-formed reading parses to minutes in [0, 1440): 12 AM is hour 0, 12 PM is 720 + m, other PM hours add 12 |
| WeatherUtils.ParseClockInjective | src/utils/weather.ts:39-51 | two 12-hour readings parse to the same minutes iff they are the same reading |
| WeatherUtils.ClockMinutesInjective | src/utils/weather.ts:44-50 | distinct 12-hour readings give distinct minutes since midnight |
| WeatherUtils.PeriodWindows | src/utils/weather.ts:61-75 | dawn iff sunrise-30 <= t <= sunrise+15; day iff strictly between sunrise+15 and sunset-30; dusk iff not dawn and within sunset-30..sunset+15; night otherwise |
| WeatherUtils.PeriodUnparsable | src/utils/weather.ts:58-75 | with an unparsable sunrise only dusk or night remain; with both unparsable it is always night |
| WeatherUtils.NoWrapPastMidnight | src/utils/weather.ts:62-75 | the windows compare raw minutes: 23:50 is night for a 00:10 sunrise |
| WeatherUtils.ReadingWindows | src/utils/weather.ts:53-76 | for sun times in the API's clock format, the period is decided by the windows around the two readings' minutes |
| WeatherUtils.MidnightAndNoonEdges | src/utils/weather.ts:44-75 | with sunrise "12:00 AM" and sunset "12:00 PM", midnight is dawn and noon is dusk |
| WeatherUtils.GetForecastTimeOfDay | src/utils/weather.ts:78-101 | the forecast variant returns the same period as getTimeOfDay for the same minutes and sun times |
| WeatherUtils.NightOnlyMatters | src/utils/weather.ts:103-172 | the night flag changes the icon exactly in the clear, partly-cloudy and default branches |
| WeatherUtils.PartlyBeforeCloudy | src/utils/weather.ts:113-121 | "partly cloudy" also says "cloudy", yet gets the partly-cloudy icon because that rule comes first |
| WeatherUtils.RainOrdering | src/utils/weather.ts:128-142 | heavy rain beats light rain; and a text that reaches the rain rules and mentions rain never gets the thunder icon |
| WeatherUtils.SnowOrdering | src/utils/weather.ts:144-153 | heavy snow and blizzard come before snow, and snow before sleet |
| WeatherUtils.SunnyConditionMeansSunIcon | src/utils/weather.ts:103-111 | the 'sunny' condition and the daytime sun icon hold for the same texts |
| WeatherUtils.RelativeNightPathIsDay | src/utils/weather.ts:106-110 | an icon path without a leading slash is not night, so "Clear" with "night/116.png" gets the sun |
| PinnedLocations.EveryItemShaped | src/hooks/usePinnedLocations.ts:24-26 | the every-check holds iff each element is an object with name and country |
| PinnedLocations.LoadPinned | src/hooks/usePinnedLocations.ts:16-38 | a missing entry gives []; parsed data is kept iff it is an array of objects with name and country; anything else, including a parse failure, gives [] and removes the entry |
| PinnedLocations.IsLocationPinnedIff | src/hooks/usePinnedLocations.ts:81-85 | a key is pinned iff some entry's key equals it |
| PinnedLocations.PinLocation | src/hooks/usePinnedLocations.ts:50-64 | returns true iff no entry has the location's key; then the location is appended at the end, otherwise the list is unchanged |
| PinnedLocations.PinKeepsKeysUnique | src/hooks/usePinnedLocations.ts:50-64 | pinning keeps a duplicate-free list duplicate-free, and afterwards the location's key is pinned |
| PinnedLocations.UnpinMembers | src/hooks/usePinnedLocations.ts:66-70 | the entries kept are exactly the entries under other keys |
| PinnedLocations.UnpinConcat | src/hooks/usePinnedLocations.ts:66-70 | the filter works piecewise over concatenation, so kept entries stay in their order |
| PinnedLocations.UnpinAbsent | src/hooks/usePinnedLocations.ts:66-70 | unpinning a key that is not pinned changes nothing |
| PinnedLocations.UnpinRemovesKey | src/hooks/usePinnedLocations.ts:66-70 | after unpinning, the key is no longer pinned |
| PinnedLocations.ReorderLocations | src/hooks/usePinnedLocations.ts:72-79 | same length and same multiset; the moved entry lands at newIndex; removing it gives the old list without the entry at oldIndex |
| PinnedLocations.ReorderSource | src/hooks/usePinnedLocations.ts:72-79 | every entry after the move is the old entry at an explicit source index, increasing away from the moved one |
| PinnedLocations.ReorderKeepsKeysUnique | src/hooks/usePinnedLocations.ts:72-79 | reordering keeps a duplicate-free list duplicate-free |
| PinnedLocations.ClearLeavesNothingPinned | src/hooks/usePinnedLocations.ts:87-89 | after clearing no key is pinned |
| App.AppIconTextAgrees | src/App.tsx:10-73 | the component's rule chain gives the glyph of the shared selector's icon on every lower-cased text and night flag |
| App.AppIconAgrees | src/App.tsx:5-74 | the component's getWeatherIcon agrees with the one in the utilities on every input |
| App.ConvertTemperature | src/App.tsx:248-253 | identity in Celsius; in Fahrenheit the integer nearest (halves up) to 9c/5 + 32 |
| App.FahrenheitIsIntegerArithmetic | src/App.tsx:248-253 | for integer input the Fahrenheit figure is floor((18c + 325) / 10) |
| App.FahrenheitLandmarks | src/App.tsx:248-253 | 0 gives 32, -40 gives -40, 100 gives 212, 37 gives 99 |
| App.FahrenheitMonotone | src/App.tsx:248-253 | a warmer reading never shows a lower Fahrenheit figure |
| App.ToggleInvolution | src/App.tsx:244-246 | toggling the unit twice restores it |
| App.FormatTemperature | src/App.tsx:255-257 | the text ends in "°" and the unit letter, and what precedes reads back as the converted number |
| App.NumberThenSuffix | src/App.tsx:256 | an integer's text followed by a two-character suffix reads back as the integer once the suffix is cut off |
| App.AnySameIff | src/App.tsx:262-264 | the some-check holds iff an entry has the same name and the same country |
| App.AppPin | src/App.tsx:259-269 | no change without a current location or when an entry has the same name and country; otherwise the current location is appended |
| App.AppPinAppendsWhenHookDoes | src/App.tsx:259-269 | whenever the hook's pin would append, so does the component's |
| App.FieldComparisonIsNotKeyComparison | src/App.tsx:262-264 | "Paris, TX"/"US" and "Paris"/"TX, US" share a key but not fields, so the component appends a duplicate key |
| App.AppIsPinnedAgrees | src/App.tsx:283-287 | the component's membership test agrees with the hook's |
| App.AppUnpin | src/App.tsx:271-281 | the list is the hook's filter, the key is no longer pinned, the key leaves the snapshot map and every other map entry is unchanged |
| App.RebuildAt | src/App.tsx:314-321 | a key is in the rebuilt map iff some pinned fetch under it succeeded, and it holds the snapshot of the last such fetch |
| App.RebuildSnapshots | src/App.tsx:304-323 | the map's keys are exactly the keys of the pinned locations whose fetch succeeded |
| App.RebuildLastWins | src/App.tsx:317-321 | each key holds the snapshot of the last successful fetch under it |
| App.Refresh | src/App.tsx:289-328 | a failed or absent current fetch keeps the shown weather; the cache is replaced by the rebuilt map; nothing else changes |
| App.RefreshDropsFailures | src/App.tsx:315-323 | a key whose fetches all failed is dropped from the cache, not kept |
| App.SelectBegin | src/App.tsx:360-364 | selecting starts loading and clears error, results and query, leaving the rest |
| App.SelectEnd | src/App.tsx:366-374 | loading ends false; success sets weather and current location; failure sets the message and keeps both |
| App.SelectOutcome | src/App.tsx:360-375 | over the whole select: results, query and error cleared, loading false, and either the full update or the failure message |
| App.LegacyLoad | src/App.tsx:192-220 | kept iff the value's `length` is positive and its `[0]` is an object with a truthy name and country and no truthy current, so an array-like object passes; otherwise [] and the entry is removed |
| App.HookKeptIsLegacyKept | src/App.tsx:199-210 | a non-empty list the hook keeps is kept by the component too when its first element has a truthy name and country and no truthy current |
| App.LegacyKeptIsShaped | src/App.tsx:208-210 | whatever the component keeps from storage has a `[0]` that is an object with name and country |
| App.ArrayLikeObjectKept | src/App.tsx:208-210 | `{"length":1,"0":{"name":"Oslo","country":"Norway"}}` is kept by the component and reset by the hook |
| App.LegacyLoadDiffersFromHook | src/App.tsx:199-214 | the component keeps an array whose second element is malformed and resets an empty array; the hook does the opposite on both |
| WeatherApi.SearchLocations | src/services/weatherApi.ts:6-39 | a blank query sends nothing and gives []; otherwise any failure gives [] and a reply is mapped field for field, region to state, same length and order |
| WeatherApi.SearchResultsReadBack | src/services/weatherApi.ts:28-34 | each mapped result reads back as the reply item it came from and carries that item's identity key; a location with a state maps back to itself |
| WeatherApi.ForecastQueryReadsBack | src/services/weatherApi.ts:44 | the forecast query splits on "," into the two coordinate texts, a missing one reading "undefined" |
| WeatherApi.UndefinedIffMissing | src/services/weatherApi.ts:44 | a coordinate reads "undefined" iff it is missing |
| WeatherApi.NoPlaceIffNoCoordinates | src/services/weatherApi.ts:44 | the query is the one of a location without coordinates iff both coordinates are missing |
| WeatherApi.NoPlaceText | src/services/weatherApi.ts:44 | a location without coordinates is sent as `q=undefined,undefined` |
| WeatherApi.Upcoming | src/services/weatherApi.ts:105 | the reference definition: an hour is kept iff it is at or after now; nothing is added |
| WeatherApi.WindowIsFirstUpcoming | src/services/weatherApi.ts:102-118 | the push loop keeps exactly the first 24 upcoming hours in source order |
| WeatherApi.Hourly | src/services/weatherApi.ts:92-118 | at most 24 entries, each at or after the location's local now |
| WeatherApi.PushHours | src/services/weatherApi.ts:103-117 | one day's inner loop extends the window over the hours seen so far by that day |
| WeatherApi.HourlyLoop | src/services/weatherApi.ts:100-118 | the nested loops compute the hourly list of the window |
| WeatherApi.ToDaily | src/services/weatherApi.ts:121-134 | a day's fields carried over, chanceOfRain defaulting to 0, both temperatures and the maximum wind rounded to within one half |
| WeatherApi.DailyFigures | src/services/weatherApi.ts:127-128 | a day whose minimum is at most its maximum shows low at most high, and whole-degree readings are shown exactly |
| WeatherApi.Daily | src/services/weatherApi.ts:121-134 | one daily entry per forecast day, in order |
| WeatherApi.ToCurrent | src/services/weatherApi.ts:138-153 | airQuality and precipitation default to 0 when absent; text and integer fields carried over; temperature, feels-like, pressure, wind and dew point rounded to within one half |
| WeatherApi.CurrentFigures | src/services/weatherApi.ts:139-148 | the card's air-quality label is known iff the reply carried an index 1..6; rounding keeps the order between temperature and feels-like |
| WeatherApi.GetWeatherData | src/services/weatherApi.ts:41-168 | each failure is rejected with its own error; success iff a body with a forecast day; then the key label, the daily list of the days, the current block of the report, the 24-hour window, astronomy from the first day |
| WeatherApi.HourlyIsFirstUpcoming | src/services/weatherApi.ts:92-118 | the snapshot's hourly list is the first 24 upcoming hours of the forecast |
| LocationSearch.Init | src/hooks/useLocationSearch.ts:23-26 | empty query, list and error, not loading, the timer armed for "" by the mount effect |
| LocationSearch.AbortCurrent | src/hooks/useLocationSearch.ts:33-35 | the held controller, if any, joins the aborted set and nothing else changes |
| LocationSearch.PerformSearch | src/hooks/useLocationSearch.ts:31-49 | a blank query clears the list and stops loading with no request; otherwise one request under a fresh controller; the previous controller is aborted either way |
| LocationSearch.StepInv | src/hooks/useLocationSearch.ts:31-109 | every event keeps the invariant: the timer carries the current query and every pending request but the held one is aborted |
| LocationSearch.RunInv | src/hooks/useLocationSearch.ts:31-109 | the invariant holds after any sequence of events |
| LocationSearch.LatestWins | src/hooks/useLocationSearch.ts:51-77 | a resolution that changes results, error or loading belongs to the last request issued |
| LocationSearch.AbortedWritesNothing | src/hooks/useLocationSearch.ts:54-76 | an aborted request changes neither results, error, loading nor query |
| LocationSearch.LiveSuccess | src/hooks/useLocationSearch.ts:59-76 | a live success shows exactly the returned list and stops loading |
| LocationSearch.ClearAbortsAll | src/hooks/useLocationSearch.ts:100-109 | clearing empties list, query and error, and every pending request is aborted |
| LocationSearch.TypingArmsLast | src/hooks/useLocationSearch.ts:81-98 | a burst of query changes issues no request and arms at most the timer for the last query, and does arm it when that query differs from the one before |
| LocationSearch.DebounceLastQueryWins | src/hooks/useLocationSearch.ts:81-98 | when the timer fires after a burst, at most one request is issued, for the last query; exactly that one when it is new and not blank, none when it is blank |
| WeatherDataHook.HookKey | src/hooks/useWeatherData.ts:32-34 | the hook's key is name + ", " + country, the same key as the pinned list and the snapshot label |
| WeatherDataHook.KeyParts | src/hooks/useWeatherData.ts:93-97 | neither recovered part contains ", " |
| WeatherDataHook.KeyRoundTrip | src/hooks/useWeatherData.ts:93-97 | splitting a key recovers name and country iff neither contains ", " |
| WeatherDataHook.CommaInNameLosesCountry | src/hooks/useWeatherData.ts:93-97 | a name holding one ", " yields its second half as the country and loses the real one |
| WeatherDataHook.RefreshTargets | src/hooks/useWeatherData.ts:92-100 | one refresh target per stored key, in order, each that key's split |
| WeatherDataHook.RefreshQueriesAsWritten | src/hooks/useWeatherData.ts:93-97 | as written, every refresh request is sent with `q=undefined,undefined` |
| WeatherDataHook.InitPlacesInv | src/hooks/useWeatherData.ts:25-30 | the corrected hook starts with every key with data remembered under its own location |
| WeatherDataHook.StartPlacesInv | src/hooks/useWeatherData.ts:36-49 | starting a fetch keeps every fetched key's location remembered under that key |
| WeatherDataHook.SettlePlacesInv | src/hooks/useWeatherData.ts:51-84 | settling, either way, keeps every key with data remembered |
| WeatherDataHook.RefreshLocations | src/hooks/useWeatherData.ts:92-100 | the corrected refresh fetches, per stored key, a location under that same key |
| WeatherDataHook.RefreshKeepsPlaces | src/hooks/useWeatherData.ts:92-100 | each corrected refresh names its key's place: its query is never `undefined,undefined` |
| WeatherDataHook.Init | src/hooks/useWeatherData.ts:25-30 | no data, no controllers, no fetch started and no location remembered |
| WeatherDataHook.Start | src/hooks/useWeatherData.ts:36-49 | loading[k] true and error[k] null, the key's previous controller aborted, a new one installed, data untouched |
| WeatherDataHook.Commit | src/hooks/useWeatherData.ts:51-80 | an aborted request writes nothing; a live success writes data[k] and loading false; a live failure writes error[k] and loading false |
| WeatherDataHook.FetchResult | src/hooks/useWeatherData.ts:51-75 | the fetch resolves to the data iff it was not aborted and succeeded, otherwise null |
| WeatherDataHook.SettleAsWritten | src/hooks/useWeatherData.ts:76-84 | settling deletes the key's controller whoever it belongs to |
| WeatherDataHook.Settle | src/hooks/useWeatherData.ts:76-84 | settling deletes the key's controller only while it is this request's own |
| WeatherDataHook.ClearError | src/hooks/useWeatherData.ts:102-104 | error[k] becomes null and nothing else changes |
| WeatherDataHook.SuccessTouchesOnlyItsKey | src/hooks/useWeatherData.ts:59 | a live success writes only its own key's data; other keys and the errors are unchanged; both as written and guarded |
| WeatherDataHook.FailureKeepsData | src/hooks/useWeatherData.ts:62-75 | a live failure sets only the key's error and keeps all data; both as written and guarded |
| WeatherDataHook.AbortedWritesNothing | src/hooks/useWeatherData.ts:51-80 | an aborted request writes no data, error or loading flag and resolves to null; both as written and guarded |
| WeatherDataHook.StartInv | src/hooks/useWeatherData.ts:36-49 | starting a fetch keeps the invariant that every live pending request holds its key's controller |
| WeatherDataHook.SettleInv | src/hooks/useWeatherData.ts:51-84 | settling keeps that invariant |
| WeatherDataHook.LatestWins | src/hooks/useWeatherData.ts:36-84 | only the latest fetch of a key can change data, errors or loading |
| WeatherDataHook.StaleWriteAsWritten | src/hooks/useWeatherData.ts:76-84 | as written, three overlapping fetches of one key end with the second one's older data shown |
| WeatherDataHook.NoStaleWrite | src/hooks/useWeatherData.ts:76-84 | with the guarded deletion the same interleaving keeps the newest data |
| SearchBar.Sanitize | src/components/SearchBar.tsx:20-25 | the sanitised text is no longer than the input and uses only its characters |
| SearchBar.SanitizeDeletes | src/components/SearchBar.tsx:23 | the output is a subsequence of the input |
| SearchBar.SanitizeLeavesNoTag | src/components/SearchBar.tsx:23 | no '<' in the output is followed later by a '>' |
| SearchBar.SanitizeKeepsClean | src/components/SearchBar.tsx:23 | a text without a '<' … '>' run passes unchanged |
| SearchBar.SanitizeFixpointIff | src/components/SearchBar.tsx:23 | the sanitiser leaves a text unchanged iff it has no '<' … '>' run |
| SearchBar.SanitizeIdempotent | src/components/SearchBar.tsx:23 | sanitising twice is sanitising once |
| SearchBar.NoAngleUnchanged | src/components/SearchBar.tsx:23 | text with no '<' is never touched |
| SearchBar.ContainerKeyDown | src/components/SearchBar.tsx:27-33 | ArrowDown with results focuses the first item; anything else leaves focus |
| SearchBar.ItemKeyDown | src/components/SearchBar.tsx:35-64 | Enter/Space select the item; ArrowDown/ArrowUp move by one, ArrowUp on the first goes to the input; Escape clears the query and focuses the input |
| SearchBar.KeyPressAsWritten | src/components/SearchBar.tsx:66-93 | the item's handler then the container's, as the event bubbles; the input's keys reach only the container; focus elsewhere reaches neither and nothing changes; focus stays within range |
| SearchBar.KeyPress | src/components/SearchBar.tsx:35-64 | a key press on an item handled by the item alone; the input as written; focus elsewhere changes nothing; focus stays within range |
| SearchBar.HandlingsDifferOnlyOnArrowDown | src/components/SearchBar.tsx:27-67 | the bubbling and the item-only handling differ exactly on ArrowDown on an item of a list of two or more |
| SearchBar.ArrowDownReturnsToFirstAsWritten | src/components/SearchBar.tsx:27-46 | as written, ArrowDown on any item ends on the first item |
| SearchBar.FocusMovement | src/components/SearchBar.tsx:27-56 | ArrowDown from the input focuses item 0; on item i it moves to i+1 and stays on the last; ArrowUp moves to i-1 or to the input |
| SearchBar.SelectAndEscape | src/components/SearchBar.tsx:37-62 | Enter and Space select locations[i]; Escape clears the query and focuses the input |
| SearchBar.WalkDown | src/components/SearchBar.tsx:27-46 | two ArrowDowns from the input reach item 1 as intended, but item 0 as written |
| WeatherCard.GetAirQuality | src/components/WeatherCard.tsx:43-51 | the label is not 'Unknown' iff the index is one of 1..6 |
| WeatherCard.AirQualityIndex | src/components/WeatherCard.tsx:43-51 | the inverse: a label gives back its index, and other texts give none |
| WeatherCard.AirQualityRoundTrip | src/components/WeatherCard.tsx:43-51 | the six indices map in order to six labels that read back as the same index |
| WeatherCard.AirQualityDefaultIsUnknown | src/components/WeatherCard.tsx:50 | the API default 0 is 'Unknown' |
| WeatherCard.GetWindSpeed | src/components/WeatherCard.tsx:36-41 | Celsius: the speed unchanged and " km/h"; Fahrenheit: the converted speed and " mph"; the number reads back |
| WeatherCard.GetPrecipitation | src/components/WeatherCard.tsx:53-58 | Celsius: the value as shown and " mm"; Fahrenheit: the fixed-point text and " in" |
| WeatherCard.ToggleLabel | src/components/WeatherCard.tsx:118 | '7D' in hourly mode, '24H' in daily mode: the span of the other mode |
| WeatherCard.ToggleTooltip | src/components/WeatherCard.tsx:115-116 | the tooltip offers the mode not shown |
| WeatherCard.ToggleLaws | src/components/WeatherCard.tsx:115-118 | toggling twice restores the mode and the label never names the span shown |
| ValidateEnv.Utf16LengthIsSize | src/utils/validateEnv.ts:31 | JavaScript's length equals the character count iff no character lies beyond the Basic Multilingual Plane |
| ValidateEnv.ValidIffLongEnough | src/utils/validateEnv.ts:28-32 | a key is valid iff its JavaScript length, in UTF-16 units, is at least 20 |
| ValidateEnv.TenEmojiAreLongEnough | src/utils/validateEnv.ts:31 | ten emoji, twenty UTF-16 units, make a valid key |
| ValidateEnv.EffectiveKey | src/services/weatherApi.ts:3 | the service sends the variable, or the demo key when it is unset or empty |
| ValidateEnv.MissingIffDemoKeySent | src/utils/validateEnv.ts:5-9 | the variable counts as missing iff the service ends up sending the demo key |
| ValidateEnv.MissingMessage | src/utils/validateEnv.ts:12 | the error message names the variable |
| ValidateEnv.ValidateEnvironment | src/utils/validateEnv.ts:1-25 | passes iff not missing; throws iff missing outside development, with the variable named; warns with four lines iff missing in development |
| ValidateEnv.ValidKeyPasses | src/utils/validateEnv.ts:28-32 | a key passing the format check also passes start-up in either mode |
| ValidateEnv.DevNeverThrows | src/utils/validateEnv.ts:14-19 | development never throws |
| Text.Round | src/services/weatherApi.ts:112 | `Math.round` gives the integer within one half, halves rounding up |
| Text.TrimEmptyIffBlank | src/services/weatherApi.ts:7 | the trimmed query is empty iff the query is all whitespace |

## Left out

- Network requests, `JSON.parse`, `localStorage`, timers and intervals are not modelled. Fetch outcomes, parsed values and stored strings are parameters, and timer firings and request settlements are events.
- `Date` parsing and time zones are not modelled. Hours carry an integer timestamp, and `getTimeOfDay` takes the local minutes since midnight.
- `toLocaleTimeString` and `toLocaleDateString` are not modelled. The hourly entry drops the locale `time` label: it keeps the parsed instant as `stamp`, and the API's time text goes to `datetime`. The daily date keeps the API's date text.
- Float arithmetic is replaced by parameters: the mph conversion, the inch conversion with `toFixed(2)`, and JavaScript's number-to-text for a float (also in the forecast query `q=lat,lon`, where it is assumed to print no "," and never "undefined"). `Math.round` is floor(x + 1/2) over reals.
- Text.ToLower: lower-cases ASCII letters only. The keywords are ASCII, but the model does not claim anything about non-ASCII condition text.
- Text.ToNumber: reads optional-sign decimal integers (after trimming, with "" giving 0) and gives NaN for everything else. Decimals, exponents, hexadecimal and "Infinity" are not modelled. The clock parser only meets two-digit fields.
- App.LegacyLoad: a string `length` property is read by `Text.ToNumber`, so one with a fraction or exponent ("0.5", "1e0") counts as not positive although JavaScript reads it as a positive number. A `null` value, on which the property read throws, is taken as rejected; the catch block ends in the same reset.
- PinnedLocations.ReorderLocations: requires both indices to be in range. The drag-and-drop callers take them from positions in the list. `splice` with an out-of-range index would insert `undefined`, which the model does not represent.
- The sanitiser's `maxLength={100}` input attribute is left out, because the browser enforces it before the handler runs.
- App's own debounced search effect (src/App.tsx:330-341) is left out. It has no cancellation, so the latest-request guarantee proved for `useLocationSearch` does not extend to it.
- Also left out:
  - the auto-refresh intervals;
  - `lastRefresh` and `refreshing`;
  - the `onError` callbacks;
  - the theme and its persistence;
  - the persistence effects that write the pinned list and the unit back to storage;
  - the unmount cleanups that abort every controller.
- `fetchMultipleWeather` is not a separate function. It is a sequence of `Start` events followed by the settlements in any order, which is what the hook's state machine covers.
- App's inline card component (src/App.tsx:85-177) is left out. It repeats the wind and precipitation formatting of `WeatherCard` and reads a `visibility` field the snapshot does not have.
- Rendering is left out: JSX, dnd-kit sorting, and the header, skeleton and error-boundary components.

## Findings

| source | as written | input that shows it | evidently intended | confidence | as-written member | corrected member |
|---|---|---|---|---|---|---|
| src/hooks/useWeatherData.ts:76-84 | the `finally` block deletes the key's controller unconditionally, even when a later fetch of the same key has installed its own | fetches 0, 1 and 2 of one location: 1 starts (aborting 0), 0 settles and deletes 1's controller, 2 starts and finds nothing to abort, 2 settles with d2, then 1 settles with d1; the data shown is the older d1 | a fetch removes only its own controller, so only the latest fetch of a key can write | not executed | WeatherDataHook.StaleWriteAsWritten | WeatherDataHook.LatestWins |
| src/hooks/useWeatherData.ts:92-100 | `refreshAll` rebuilds each location as `{ name, country }` from its key, and the request then sends `q=${location.lat},${location.lon}` (src/services/weatherApi.ts:44) with both undefined | a stored key "Oslo, Norway": its refresh requests the forecast for `q=undefined,undefined`, which names no place | each refresh fetches the stored location again, coordinates included | not executed | WeatherDataHook.RefreshQueriesAsWritten | WeatherDataHook.RefreshKeepsPlaces |
| src/components/SearchBar.tsx:42-46 | the item's ArrowDown handler focuses the next item, but the event then bubbles to the container's `onKeyDown` (line 67), which focuses the first item again | two results, focus on item 0 or item 1, press ArrowDown: focus ends on item 0, so ArrowDown never walks down the list | the item handles the key alone (propagation stopped), so focus moves to the next item | not executed | SearchBar.ArrowDownReturnsToFirstAsWritten | SearchBar.FocusMovement |
