/** The few JavaScript string operations the application relies on:
    `toLowerCase`, `includes`, `indexOf`, `trim`, `split`, `Number(...)` and
    the `${n}` rendering of an integer. */
module Text {
  import opened Wrappers

  // ---------------------------------------------------------------------
  // Case

  predicate IsUpper(c: char) {
    'A' <= c <= 'Z'
  }

  function LowerChar(c: char): char {
    if IsUpper(c) then (c as int + 32) as char else c
  }

  /** `toLowerCase`, on the ASCII letters. */
  function ToLower(s: string): string {
    seq(|s|, i requires 0 <= i < |s| => LowerChar(s[i]))
  }

  predicate NoUpper(s: string) {
    forall i :: 0 <= i < |s| ==> !IsUpper(s[i])
  }

  /** Lower-casing leaves no upper-case letter behind, and does nothing to a
      string that has none. */
  lemma ToLowerLowers(s: string)
    ensures NoUpper(ToLower(s))
    ensures NoUpper(s) ==> ToLower(s) == s
  {
  }

  lemma ToLowerIdempotent(s: string)
    ensures ToLower(ToLower(s)) == ToLower(s)
  {
    ToLowerLowers(s);
    ToLowerLowers(ToLower(s));
  }

  // ---------------------------------------------------------------------
  // Searching

  /** `sub` occurs in `s` starting at index `i`. */
  predicate OccursAt(s: string, sub: string, i: int) {
    0 <= i && i + |sub| <= |s| && s[i..i + |sub|] == sub
  }

  /** `s.indexOf(sub)`, with `None` for -1. */
  function IndexOf(s: string, sub: string): (r: Option<nat>)
    ensures r.Some? ==> OccursAt(s, sub, r.value)
    ensures r.Some? ==> forall j :: 0 <= j < r.value ==> !OccursAt(s, sub, j)
    ensures r.None? ==> forall j :: !OccursAt(s, sub, j)
    decreases |s|
  {
    if |s| < |sub| then None
    else if s[..|sub|] == sub then Some(0)
    else
      var rest := IndexOf(s[1..], sub);
      assert forall j :: 1 <= j ==> (OccursAt(s, sub, j) <==> OccursAt(s[1..], sub, j - 1)) by {
        forall j | 1 <= j
          ensures OccursAt(s, sub, j) <==> OccursAt(s[1..], sub, j - 1)
        {
          if j + |sub| <= |s| {
            assert s[1..][j - 1..j - 1 + |sub|] == s[j..j + |sub|];
          }
        }
      }
      match rest
      case None => None
      case Some(k) => Some(k + 1)
  }

  /** `s.includes(sub)`. */
  predicate Contains(s: string, sub: string) {
    IndexOf(s, sub).Some?
  }

  lemma ContainsIff(s: string, sub: string)
    ensures Contains(s, sub) <==> exists i :: OccursAt(s, sub, i)
  {
  }

  /** Containment is transitive: a text containing "partly cloudy" contains
      "cloudy". */
  lemma ContainsTrans(s: string, a: string, b: string)
    requires Contains(s, a) && Contains(a, b)
    ensures Contains(s, b)
  {
    var i := IndexOf(s, a).value;
    var j := IndexOf(a, b).value;
    assert a == s[i..i + |a|];
    assert a[j..j + |b|] == s[i + j..i + j + |b|];
    assert OccursAt(s, b, i + j);
  }

  lemma ContainsInfix(s: string, sub: string, i: int)
    requires OccursAt(s, sub, i)
    ensures Contains(s, sub)
  {
  }

  /** A string without the character `c` does not contain `[c]`. */
  lemma NoCharNoContains(s: string, c: char)
    requires forall i :: 0 <= i < |s| ==> s[i] != c
    ensures !Contains(s, [c])
  {
    forall i
      ensures !OccursAt(s, [c], i)
    {
      if 0 <= i && i + 1 <= |s| {
        assert s[i..i + 1][0] == s[i];
      }
    }
  }

  lemma ContainsConcat(a: string, b: string, sub: string)
    requires Contains(a, sub) || Contains(b, sub)
    ensures Contains(a + b, sub)
  {
    if Contains(a, sub) {
      var i := IndexOf(a, sub).value;
      assert (a + b)[i..i + |sub|] == a[i..i + |sub|];
      assert OccursAt(a + b, sub, i);
    } else {
      var i := IndexOf(b, sub).value;
      assert (a + b)[|a| + i..|a| + i + |sub|] == b[i..i + |sub|];
      assert OccursAt(a + b, sub, |a| + i);
    }
  }

  // ---------------------------------------------------------------------
  // Whitespace and trim

  /** ECMAScript WhiteSpace and LineTerminator code points, the set `trim`
      and `Number` strip. */
  predicate IsJsSpace(c: char) {
    c == '\t' || c == '\n' || c == '\U{000B}' || c == '\U{000C}' || c == '\r'
    || c == ' ' || c == '\U{00A0}' || c == '\U{1680}'
    || ('\U{2000}' <= c <= '\U{200A}')
    || c == '\U{2028}' || c == '\U{2029}' || c == '\U{202F}' || c == '\U{205F}'
    || c == '\U{3000}' || c == '\U{FEFF}'
  }

  predicate Blank(s: string) {
    forall i :: 0 <= i < |s| ==> IsJsSpace(s[i])
  }

  function TrimStart(s: string): (r: string)
    ensures r == [] || !IsJsSpace(r[0])
    ensures |r| <= |s| && r == s[|s| - |r|..]
    ensures Blank(s[..|s| - |r|])
  {
    if s != [] && IsJsSpace(s[0]) then
      var r := TrimStart(s[1..]);
      assert s[..|s| - |r|] == [s[0]] + s[1..][..|s| - 1 - |r|];
      r
    else s
  }

  function TrimEnd(s: string): (r: string)
    ensures r == [] || !IsJsSpace(r[|r| - 1])
    ensures |r| <= |s| && r == s[..|r|]
    ensures Blank(s[|r|..])
  {
    if s != [] && IsJsSpace(s[|s| - 1]) then
      var r := TrimEnd(s[..|s| - 1]);
      assert s[|r|..] == s[..|s| - 1][|r|..] + [s[|s| - 1]];
      r
    else s
  }

  /** `s.trim()`. */
  function Trim(s: string): string {
    TrimEnd(TrimStart(s))
  }

  /** `!s.trim()` holds exactly for the strings made only of whitespace. */
  lemma TrimEmptyIffBlank(s: string)
    ensures Trim(s) == [] <==> Blank(s)
  {
    var t := TrimStart(s);
    if Trim(s) == [] {
      assert Blank(t[0..]);
      assert s == s[..|s| - |t|] + t;
    }
  }

  /** A string that neither starts nor ends with whitespace trims to itself. */
  lemma TrimNoSpaceEnds(s: string)
    requires s != [] && !IsJsSpace(s[0]) && !IsJsSpace(s[|s| - 1])
    ensures Trim(s) == s
  {
  }

  // ---------------------------------------------------------------------
  // Splitting

  /** `s.split(sep)` for a non-empty separator string. */
  function Split(s: string, sep: string): (parts: seq<string>)
    requires |sep| > 0
    ensures |parts| >= 1
    ensures forall k :: 0 <= k < |parts| ==> !Contains(parts[k], sep)
    decreases |s|
  {
    match IndexOf(s, sep)
    case None => [s]
    case Some(i) =>
      var head := s[..i];
      assert !Contains(head, sep) by {
        forall j | OccursAt(head, sep, j)
          ensures false
        {
          assert s[j..j + |sep|] == head[j..j + |sep|];
          assert OccursAt(s, sep, j);
        }
      }
      [head] + Split(s[i + |sep|..], sep)
  }

  /** `parts.join(sep)`. */
  function Join(parts: seq<string>, sep: string): string {
    if |parts| == 0 then ""
    else if |parts| == 1 then parts[0]
    else parts[0] + sep + Join(parts[1..], sep)
  }

  /** Splitting loses nothing: joining the parts gives the string back. */
  lemma {:induction false} SplitJoin(s: string, sep: string)
    requires |sep| > 0
    ensures Join(Split(s, sep), sep) == s
    decreases |s|
  {
    match IndexOf(s, sep)
    case None =>
    case Some(i) =>
      var rest := s[i + |sep|..];
      var tail := Split(rest, sep);
      var parts := [s[..i]] + tail;
      assert Split(s, sep) == parts;
      assert parts[1..] == tail;
      SplitJoin(rest, sep);
      assert Join(parts, sep) == s[..i] + sep + Join(tail, sep);
      assert s == s[..i] + sep + rest;
  }

  /** When the first occurrence of `sep` in `a + sep + b` is the one
      between `a` and `b`, splitting yields `a` first and then the parts of `b`. */
  lemma SplitAfterPrefix(a: string, sep: string, b: string)
    requires |sep| > 0
    requires forall j :: 0 <= j < |a| ==> !OccursAt(a + sep, sep, j)
    ensures Split(a + sep + b, sep) == [a] + Split(b, sep)
  {
    var s := a + sep + b;
    assert OccursAt(s, sep, |a|) by {
      assert s[|a|..|a| + |sep|] == sep;
    }
    forall j | 0 <= j < |a|
      ensures !OccursAt(s, sep, j)
    {
      if OccursAt(s, sep, j) {
        assert (a + sep)[j..j + |sep|] == s[j..j + |sep|];
        assert OccursAt(a + sep, sep, j);
      }
    }
    assert IndexOf(s, sep) == Some(|a|);
    assert s[..|a|] == a;
    assert s[|a| + |sep|..] == b;
  }

  lemma SplitNone(s: string, sep: string)
    requires |sep| > 0 && !Contains(s, sep)
    ensures Split(s, sep) == [s]
  {
  }

  // ---------------------------------------------------------------------
  // Numbers

  /** A JavaScript number as far as this model needs one: an integer or NaN. */
  datatype Num = Int(v: int) | NaN {
    function Plus(k: int): Num {
      match this
      case Int(x) => Int(x + k)
      case NaN => NaN
    }
  }

  predicate IsDigit(c: char) {
    '0' <= c <= '9'
  }

  predicate AllDigits(s: string) {
    forall i :: 0 <= i < |s| ==> IsDigit(s[i])
  }

  function DigitValue(c: char): nat
    requires IsDigit(c)
  {
    c as int - '0' as int
  }

  function DigitChar(d: nat): (c: char)
    requires d < 10
    ensures IsDigit(c) && DigitValue(c) == d
  {
    ('0' as int + d) as char
  }

  /** The value of a string of decimal digits. */
  function DigitsValue(s: string): nat
    requires AllDigits(s)
  {
    if s == [] then 0 else DigitsValue(s[..|s| - 1]) * 10 + DigitValue(s[|s| - 1])
  }

  /** `Number(s)`: surrounding whitespace is ignored, the empty string is 0,
      an optional sign followed by decimal digits is read as an integer, and
      every other string is NaN. */
  function ToNumber(s: string): Num {
    var t := Trim(s);
    if t == [] then Int(0)
    else if (t[0] == '-' || t[0] == '+') && |t| > 1 && AllDigits(t[1..]) then
      var d: int := DigitsValue(t[1..]);
      Int(if t[0] == '-' then -d else d)
    else if AllDigits(t) then Int(DigitsValue(t))
    else NaN
  }

  /** The decimal digits of `n`, no leading zeros. */
  function NatToString(n: nat): (s: string)
    ensures s != [] && AllDigits(s)
  {
    if n < 10 then [DigitChar(n)] else NatToString(n / 10) + [DigitChar(n % 10)]
  }

  /** `${n}` for an integer `n`. */
  function IntToString(n: int): string {
    if n < 0 then "-" + NatToString(-n) else NatToString(n)
  }

  lemma {:induction false} NatToStringValue(n: nat)
    ensures DigitsValue(NatToString(n)) == n
  {
    if n >= 10 {
      NatToStringValue(n / 10);
      var s := NatToString(n);
      assert s[..|s| - 1] == NatToString(n / 10);
    }
  }

  /** `Number` reads back what `${n}` writes. */
  lemma IntToStringRoundTrip(n: int)
    ensures ToNumber(IntToString(n)) == Int(n)
  {
    var s := IntToString(n);
    TrimNoSpaceEnds(s);
    assert Trim(s) == s;
    if n < 0 {
      var m := NatToString(-n);
      NatToStringValue(-n);
      assert s == "-" + m;
      assert s[1..] == m;
      assert s[0] == '-' && |s| > 1 && AllDigits(s[1..]);
    } else {
      NatToStringValue(n);
      assert IsDigit(s[0]);
    }
  }

  /** `Math.round(x)`: the nearest integer, halves rounded up. */
  function Round(x: real): (r: int)
    ensures r as real - 0.5 <= x < r as real + 0.5
  {
    (x + 0.5).Floor
  }

  /** Rounding never reverses an order. */
  lemma RoundMonotone(x: real, y: real)
    requires x <= y
    ensures Round(x) <= Round(y)
  {
  }

  /** A whole number rounds to itself. */
  lemma RoundWhole(n: int)
    ensures Round(n as real) == n
  {
  }
}
