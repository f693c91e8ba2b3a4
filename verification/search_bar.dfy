/** The logic of the search bar (src/components/SearchBar.tsx): the tag
    stripping applied to every edit of the input, and the keyboard focus
    movement between the input and the result items. */
module SearchBar {
  import opened Wrappers
  import opened Types

  // ---------------------------------------------------------------------
  // Sanitiser

  /** The index of the first '>' in `s`. */
  function FirstClose(s: string): (r: Option<nat>)
    ensures r.Some? ==> r.value < |s| && s[r.value] == '>' && forall j :: 0 <= j < r.value ==> s[j] != '>'
    ensures r.None? ==> forall j :: 0 <= j < |s| ==> s[j] != '>'
  {
    if s == [] then None
    else if s[0] == '>' then Some(0)
    else match FirstClose(s[1..])
      case None => None
      case Some(k) => Some(k + 1)
  }

  /** `value.replace(/<[^>]*>/g, '')`: scanning left to right, a '<' that
      has a '>' somewhere after it is deleted together with everything up
      to and including the first such '>'; a '<' with no '>' after it
      stays. */
  function Sanitize(s: string): (r: string)
    ensures |r| <= |s|
    ensures forall c :: c in r ==> c in s
    decreases |s|
  {
    if s == [] then []
    else if s[0] == '<' && FirstClose(s[1..]).Some? then
      var rest := s[FirstClose(s[1..]).value + 2..];
      assert forall c :: c in rest ==> c in s;
      Sanitize(rest)
    else
      assert forall c :: c in s[1..] ==> c in s;
      [s[0]] + Sanitize(s[1..])
  }

  /** No '<' is followed, anywhere later, by a '>'. */
  predicate NoTag(s: string) {
    forall i, j :: 0 <= i < j < |s| && s[i] == '<' ==> s[j] != '>'
  }

  /** `a` is obtained from `b` by deleting characters. */
  predicate Subsequence(a: string, b: string)
    decreases |b|
  {
    if b == [] then a == []
    else (a != [] && a[0] == b[0] && Subsequence(a[1..], b[1..])) || Subsequence(a, b[1..])
  }

  lemma {:induction false} SubsequenceOfSuffix(a: string, b: string, k: nat)
    requires k <= |b| && Subsequence(a, b[k..])
    ensures Subsequence(a, b)
  {
    if k > 0 {
      assert b[k..] == b[1..][k - 1..];
      SubsequenceOfSuffix(a, b[1..], k - 1);
    }
  }

  /** The sanitiser only deletes characters. */
  lemma {:induction false} SanitizeDeletes(s: string)
    ensures Subsequence(Sanitize(s), s)
    decreases |s|
  {
    if s != [] {
      if s[0] == '<' && FirstClose(s[1..]).Some? {
        var k := FirstClose(s[1..]).value + 2;
        SanitizeDeletes(s[k..]);
        SubsequenceOfSuffix(Sanitize(s), s, k);
      } else {
        SanitizeDeletes(s[1..]);
        var r := Sanitize(s);
        assert r[1..] == Sanitize(s[1..]);
      }
    }
  }

  /** What is left has no tag-like '<' … '>' run. */
  lemma {:induction false} SanitizeLeavesNoTag(s: string)
    ensures NoTag(Sanitize(s))
    decreases |s|
  {
    if s != [] {
      if s[0] == '<' && FirstClose(s[1..]).Some? {
        SanitizeLeavesNoTag(s[FirstClose(s[1..]).value + 2..]);
      } else {
        SanitizeLeavesNoTag(s[1..]);
        var t := Sanitize(s[1..]);
        var r := Sanitize(s);
        assert r == [s[0]] + t;
        forall i, j | 0 <= i < j < |r| && r[i] == '<'
          ensures r[j] != '>'
        {
          if i == 0 {
            assert r[j] == t[j - 1] && r[j] in t;
            assert r[j] in s[1..];
          } else {
            assert r[i] == t[i - 1] && r[j] == t[j - 1];
          }
        }
      }
    }
  }

  /** A string with no tag-like run passes through unchanged. */
  lemma {:induction false} SanitizeKeepsClean(s: string)
    requires NoTag(s)
    ensures Sanitize(s) == s
    decreases |s|
  {
    if s != [] {
      if s[0] == '<' {
        forall j | 0 <= j < |s[1..]|
          ensures s[1..][j] != '>'
        {
          assert s[1..][j] == s[j + 1];
        }
      }
      assert NoTag(s[1..]) by {
        forall i, j | 0 <= i < j < |s[1..]| && s[1..][i] == '<'
          ensures s[1..][j] != '>'
        {
          assert s[1..][i] == s[i + 1] && s[1..][j] == s[j + 1];
        }
      }
      SanitizeKeepsClean(s[1..]);
      assert [s[0]] + s[1..] == s;
    }
  }

  /** The sanitiser changes a string exactly when it has a tag-like run. */
  lemma SanitizeFixpointIff(s: string)
    ensures Sanitize(s) == s <==> NoTag(s)
  {
    SanitizeLeavesNoTag(s);
    if NoTag(s) {
      SanitizeKeepsClean(s);
    }
  }

  /** Sanitising twice is sanitising once. */
  lemma SanitizeIdempotent(s: string)
    ensures Sanitize(Sanitize(s)) == Sanitize(s)
  {
    SanitizeLeavesNoTag(s);
    SanitizeKeepsClean(Sanitize(s));
  }

  /** Text without '<' is never touched. */
  lemma NoAngleUnchanged(s: string)
    requires forall i :: 0 <= i < |s| ==> s[i] != '<'
    ensures Sanitize(s) == s
  {
    SanitizeKeepsClean(s);
  }

  // ---------------------------------------------------------------------
  // Keyboard focus

  datatype Focus = OnInput | OnItem(index: nat) | Away

  datatype Key = ArrowDown | ArrowUp | Enter | Space | Escape | OtherKey

  /** The focus after a key press, the index of the location selected, and
      whether the query was cleared. */
  datatype KeyOutcome = KeyOutcome(focus: Focus, selected: Option<nat>, clearQuery: bool)

  /** `handleKeyDown` on the container: ArrowDown with results focuses the
      first item. */
  function ContainerKeyDown(focus: Focus, key: Key, count: nat): (f: Focus)
    ensures key == ArrowDown && count > 0 ==> f == OnItem(0)
    ensures !(key == ArrowDown && count > 0) ==> f == focus
  {
    if key == ArrowDown && count > 0 then OnItem(0) else focus
  }

  /** `handleLocationKeyDown` on item `i` of `count`. Focusing an element
      that does not exist does nothing. */
  function ItemKeyDown(i: nat, key: Key, count: nat): (r: KeyOutcome)
    requires i < count
    ensures key == Enter || key == Space ==> r == KeyOutcome(OnItem(i), Some(i), false)
    ensures key == ArrowDown ==> r == KeyOutcome(if i + 1 < count then OnItem(i + 1) else OnItem(i), None, false)
    ensures key == ArrowUp ==> r == KeyOutcome(if i == 0 then OnInput else OnItem(i - 1), None, false)
    ensures key == Escape ==> r == KeyOutcome(OnInput, None, true)
    ensures key == OtherKey ==> r == KeyOutcome(OnItem(i), None, false)
  {
    match key
    case Enter => KeyOutcome(OnItem(i), Some(i), false)
    case Space => KeyOutcome(OnItem(i), Some(i), false)
    case ArrowDown => KeyOutcome(if i + 1 < count then OnItem(i + 1) else OnItem(i), None, false)
    case ArrowUp => KeyOutcome(if i == 0 then OnInput else OnItem(i - 1), None, false)
    case Escape => KeyOutcome(OnInput, None, true)
    case OtherKey => KeyOutcome(OnItem(i), None, false)
  }

  predicate InRange(focus: Focus, count: nat) {
    focus.OnItem? ==> focus.index < count
  }

  /** A key press as the component handles it: the item's handler runs,
      then the event bubbles (nothing stops its propagation) to the
      container's handler. A key pressed with the focus outside the
      container reaches neither handler. */
  function KeyPressAsWritten(focus: Focus, key: Key, count: nat): (r: KeyOutcome)
    requires InRange(focus, count)
    ensures InRange(r.focus, count)
    ensures focus == Away ==> r == KeyOutcome(Away, None, false)
    ensures r.focus == Away ==> focus == Away
  {
    match focus
    case OnItem(i) =>
      var o := ItemKeyDown(i, key, count);
      o.(focus := ContainerKeyDown(o.focus, key, count))
    case OnInput => KeyOutcome(ContainerKeyDown(OnInput, key, count), None, false)
    case Away => KeyOutcome(Away, None, false)
  }

  /** The intended handling: a key press on an item is the item's alone. */
  function KeyPress(focus: Focus, key: Key, count: nat): (r: KeyOutcome)
    requires InRange(focus, count)
    ensures InRange(r.focus, count)
    ensures focus == Away ==> r == KeyOutcome(Away, None, false)
    ensures r.focus == Away ==> focus == Away
  {
    match focus
    case OnItem(i) => ItemKeyDown(i, key, count)
    case OnInput => KeyOutcome(ContainerKeyDown(OnInput, key, count), None, false)
    case Away => KeyOutcome(Away, None, false)
  }

  /** As written, ArrowDown on any item ends on the first item: the
      container's handler undoes the move to the next one. */
  lemma ArrowDownReturnsToFirstAsWritten(i: nat, count: nat)
    requires i < count
    ensures KeyPressAsWritten(OnItem(i), ArrowDown, count).focus == OnItem(0)
  {
  }

  /** Intended behaviour: ArrowDown in the input with results focuses the
      first item; on an item it moves one down and stays on the last;
      ArrowUp moves one up and leaves the first item for the input. */
  lemma FocusMovement(i: nat, count: nat)
    requires i < count
    ensures KeyPress(OnInput, ArrowDown, count).focus == OnItem(0)
    ensures KeyPress(OnItem(i), ArrowDown, count).focus == if i + 1 < count then OnItem(i + 1) else OnItem(i)
    ensures KeyPress(OnItem(i), ArrowUp, count).focus == if i == 0 then OnInput else OnItem(i - 1)
    ensures KeyPressAsWritten(OnItem(i), ArrowUp, count) == KeyPress(OnItem(i), ArrowUp, count)
  {
  }

  /** Enter and Space select the focused item's location; Escape clears the
      query and returns to the input. The container adds nothing to these. */
  lemma SelectAndEscape(i: nat, locations: seq<Location>)
    requires i < |locations|
    ensures var r := KeyPressAsWritten(OnItem(i), Enter, |locations|);
      r.selected.Some? && locations[r.selected.value] == locations[i]
    ensures KeyPressAsWritten(OnItem(i), Space, |locations|).selected == Some(i)
    ensures KeyPressAsWritten(OnItem(i), Escape, |locations|) == KeyOutcome(OnInput, None, true)
  {
  }

  /** Walking down with ArrowDown from the input visits the items in order
      under the intended handling, but never gets past the first as written. */
  /** The two handlings differ exactly in ArrowDown on an item of a list
      of two or more: everywhere else the container's handler repeats what
      the item's handler did or leaves it alone. */
  lemma {:induction false} HandlingsDifferOnlyOnArrowDown(focus: Focus, key: Key, count: nat)
    requires InRange(focus, count)
    ensures KeyPressAsWritten(focus, key, count) != KeyPress(focus, key, count)
      <==> key == ArrowDown && focus.OnItem? && count >= 2
  {
    if focus.OnItem? && key == ArrowDown && count >= 2 {
      var i := focus.index;
      assert KeyPressAsWritten(focus, key, count).focus == OnItem(0);
      assert KeyPress(focus, key, count).focus == if i + 1 < count then OnItem(i + 1) else OnItem(i);
    }
  }

  lemma WalkDown(count: nat)
    requires count >= 2
    ensures KeyPress(KeyPress(OnInput, ArrowDown, count).focus, ArrowDown, count).focus == OnItem(1)
    ensures KeyPressAsWritten(KeyPressAsWritten(OnInput, ArrowDown, count).focus, ArrowDown, count).focus == OnItem(0)
  {
  }
}
