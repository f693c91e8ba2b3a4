/** The start-up checks of the API key (src/utils/validateEnv.ts), as
    functions of the environment value and the build mode. */
module ValidateEnv {
  import opened Wrappers
  import opened Text

  const KeyVariable: string := "VITE_WEATHERAPI_KEY"
  const DemoKey: string := "demo_key"
  const MissingPrefix: string := "Missing or invalid required environment variables: "

  /** JavaScript's `length`: the number of UTF-16 code units, two for a
      character beyond the Basic Multilingual Plane. */
  function Utf16Length(s: string): (n: nat)
    ensures |s| <= n <= 2 * |s|
  {
    if s == [] then 0
    else Utf16Length(s[..|s| - 1]) + (if s[|s| - 1] as int > 0xFFFF then 2 else 1)
  }

  /** The unit count equals the character count exactly when no character
      needs a surrogate pair. */
  lemma {:induction false} Utf16LengthIsSize(s: string)
    ensures Utf16Length(s) == |s| <==> forall i :: 0 <= i < |s| ==> s[i] as int <= 0xFFFF
  {
    if s != [] {
      var p := s[..|s| - 1];
      Utf16LengthIsSize(p);
      assert forall i :: 0 <= i < |p| ==> p[i] == s[i];
      if Utf16Length(s) == |s| {
        assert Utf16Length(p) <= |p|;
        assert s[|s| - 1] as int <= 0xFFFF;
      }
    }
  }

  /** `isValidApiKey`: at least 20 UTF-16 units and not the demo key. */
  predicate IsValidApiKey(apiKey: string) {
    Utf16Length(apiKey) >= 20 && apiKey != DemoKey
  }

  /** The demo-key clause is subsumed: that key is only 8 units long. */
  lemma ValidIffLongEnough(apiKey: string)
    ensures IsValidApiKey(apiKey) <==> Utf16Length(apiKey) >= 20
  {
    Utf16LengthIsSize(DemoKey);
    assert forall i :: 0 <= i < |DemoKey| ==> DemoKey[i] as int <= 0xFFFF;
  }

  /** The bound counts units, not characters: ten emoji make a valid key. */
  lemma TenEmojiAreLongEnough()
    ensures IsValidApiKey(seq(10, _ => '\U{1F600}'))
  {
    var k := seq(10, _ => '\U{1F600}');
    assert forall i :: 0 <= i < 10 ==> k[..i + 1] == k[..i] + [k[i]];
    assert Utf16Length(k[..0]) == 0;
    var j := 0;
    while j < 10
      invariant 0 <= j <= 10 && Utf16Length(k[..j]) == 2 * j
    {
      assert k[..j + 1][..j] == k[..j];
      j := j + 1;
    }
    assert k[..10] == k;
  }

  /** The variable counts as missing when unset, empty or the demo key. */
  predicate Missing(value: Option<string>) {
    value.None? || value.value == "" || value.value == DemoKey
  }

  /** The key the API service sends: the variable, or the demo key when it
      is unset or empty. */
  function EffectiveKey(value: Option<string>): (k: string)
    ensures value.Some? && value.value != "" ==> k == value.value
    ensures value.None? || value.value == "" ==> k == DemoKey
  {
    if value.None? || value.value == "" then DemoKey else value.value
  }

  /** The variable is missing exactly when the service falls back to (or is
      given) the demo key. */
  lemma MissingIffDemoKeySent(value: Option<string>)
    ensures Missing(value) <==> EffectiveKey(value) == DemoKey
  {
  }

  /** How `validateEnvironmentVariables` ends: normally, after warnings, or
      by throwing. */
  datatype Check = Passed | Warned(lines: seq<string>) | Threw(message: string)

  function MissingMessage(): (m: string)
    ensures Contains(m, KeyVariable)
  {
    var m := MissingPrefix + KeyVariable;
    assert m[|MissingPrefix|..|MissingPrefix| + |KeyVariable|] == KeyVariable;
    ContainsInfix(m, KeyVariable, |MissingPrefix|);
    m
  }

  function ValidateEnvironment(value: Option<string>, isDev: bool): (r: Check)
    ensures r.Passed? <==> !Missing(value)
    ensures r.Threw? <==> Missing(value) && !isDev
    ensures r.Warned? <==> Missing(value) && isDev
    ensures r.Threw? ==> Contains(r.message, KeyVariable)
    ensures r.Warned? ==> |r.lines| == 4 && r.lines[0] == "⚠️ " + MissingMessage()
  {
    if !Missing(value) then Passed
    else if isDev then
      Warned(["⚠️ " + MissingMessage(),
              "The app will continue to run but API calls may fail.",
              "Please create a .env file with your WeatherAPI key:",
              "VITE_WEATHERAPI_KEY=your_api_key_here"])
    else Threw(MissingMessage())
  }

  /** A key that passes the format check also passes start-up, in either
      mode. */
  lemma ValidKeyPasses(apiKey: string, isDev: bool)
    requires IsValidApiKey(apiKey)
    ensures ValidateEnvironment(Some(apiKey), isDev) == Passed
  {
  }

  /** Development never throws. */
  lemma DevNeverThrows(value: Option<string>)
    ensures !ValidateEnvironment(value, true).Threw?
  {
  }
}
