/** The pinned-location list of the `usePinnedLocations` hook: the
    validated initial load from storage and the list operations, each a
    pure function from the previous list to the next one. */
module PinnedLocations {
  import opened Wrappers
  import opened Types
  import opened Json

  // ---------------------------------------------------------------------
  // Initial load

  /** An element the loader accepts: an object with `name` and `country`. */
  predicate ItemShaped(j: Json) {
    j.JObj? && HasField(j.fields, "name") && HasField(j.fields, "country")
  }

  /** The shape the loader accepts: an array of such objects. */
  predicate ValidShape(j: Json) {
    j.JArr? && forall i :: 0 <= i < |j.items| ==> ItemShaped(j.items[i])
  }

  /** `items.every(item => item && typeof item === 'object' && 'name' in item && 'country' in item)` */
  function EveryItemShaped(items: seq<Json>): (ok: bool)
    ensures ok <==> forall i :: 0 <= i < |items| ==> ItemShaped(items[i])
  {
    if items == [] then true
    else ItemShaped(items[0]) && EveryItemShaped(items[1..])
  }

  /** What the loader yields: the list to start from, and whether it
      removes the stored entry. */
  datatype Loaded = Loaded(pinned: Json, clearStored: bool)

  /** The initial state of the hook. `stored` is the storage entry
      (`None` when absent) and `parse` is `JSON.parse` (`None` when it
      throws). */
  function LoadPinned(stored: Option<string>, parse: string -> Option<Json>): (r: Loaded)
    ensures ValidShape(r.pinned)
    ensures r.clearStored ==> r.pinned == EmptyArray
    ensures stored == None || stored == Some("") ==> r == Loaded(EmptyArray, false)
    ensures stored.Some? && stored.value != "" ==>
      match parse(stored.value)
      case Some(j) => if ValidShape(j) then r == Loaded(j, false) else r == Loaded(EmptyArray, true)
      case None => r == Loaded(EmptyArray, true)
  {
    if stored.None? || stored.value == "" then Loaded(EmptyArray, false)
    else match parse(stored.value)
      case None => Loaded(EmptyArray, true)
      case Some(parsed) =>
        if parsed.JArr? && EveryItemShaped(parsed.items) then Loaded(parsed, false)
        else Loaded(EmptyArray, true)
  }

  // ---------------------------------------------------------------------
  // Membership

  /** `pinned.some(p => getLocationKey(p) === key)` */
  predicate IsLocationPinned(pinned: seq<Location>, key: string) {
    if pinned == [] then false
    else LocationKey(pinned[0]) == key || IsLocationPinned(pinned[1..], key)
  }

  predicate HasKeyAt(pinned: seq<Location>, key: string, i: int) {
    0 <= i < |pinned| && LocationKey(pinned[i]) == key
  }

  lemma {:induction false} IsLocationPinnedIff(pinned: seq<Location>, key: string)
    ensures IsLocationPinned(pinned, key) <==> exists i :: HasKeyAt(pinned, key, i)
  {
    if pinned != [] {
      IsLocationPinnedIff(pinned[1..], key);
      if LocationKey(pinned[0]) == key {
        assert HasKeyAt(pinned, key, 0);
      }
      if exists i :: HasKeyAt(pinned[1..], key, i) {
        var i :| HasKeyAt(pinned[1..], key, i);
        assert HasKeyAt(pinned, key, i + 1);
      }
      if exists i :: HasKeyAt(pinned, key, i) {
        var i :| HasKeyAt(pinned, key, i);
        if i > 0 {
          assert HasKeyAt(pinned[1..], key, i - 1);
        }
      }
    }
  }

  /** No two entries share an identity key. */
  predicate NoDuplicateKeys(pinned: seq<Location>) {
    forall i, j :: 0 <= i < j < |pinned| ==> LocationKey(pinned[i]) != LocationKey(pinned[j])
  }

  // ---------------------------------------------------------------------
  // Pin

  /** `pinLocation`: the boolean it returns and the list it leaves. */
  function PinLocation(pinned: seq<Location>, location: Location): (r: (bool, seq<Location>))
    ensures r.0 <==> !exists i :: HasKeyAt(pinned, LocationKey(location), i)
    ensures r.0 ==> r.1 == pinned + [location]
    ensures !r.0 ==> r.1 == pinned
  {
    IsLocationPinnedIff(pinned, LocationKey(location));
    if IsLocationPinned(pinned, LocationKey(location)) then (false, pinned)
    else (true, pinned + [location])
  }

  /** Pinning keeps the list free of duplicate keys, and afterwards the
      location is pinned. */
  lemma PinKeepsKeysUnique(pinned: seq<Location>, location: Location)
    requires NoDuplicateKeys(pinned)
    ensures NoDuplicateKeys(PinLocation(pinned, location).1)
    ensures IsLocationPinned(PinLocation(pinned, location).1, LocationKey(location))
  {
    var r := PinLocation(pinned, location).1;
    if PinLocation(pinned, location).0 {
      forall i | 0 <= i < |pinned|
        ensures LocationKey(r[i]) != LocationKey(location)
      {
        assert !HasKeyAt(pinned, LocationKey(location), i);
      }
      IsLocationPinnedIff(r, LocationKey(location));
      assert HasKeyAt(r, LocationKey(location), |pinned|);
    } else {
      IsLocationPinnedIff(pinned, LocationKey(location));
    }
  }

  // ---------------------------------------------------------------------
  // Unpin

  /** `unpinLocation`: `pinned.filter(p => getLocationKey(p) !== key)` */
  function UnpinLocation(pinned: seq<Location>, key: string): (r: seq<Location>)
    ensures |r| <= |pinned|
  {
    if pinned == [] then []
    else (if LocationKey(pinned[0]) != key then [pinned[0]] else []) + UnpinLocation(pinned[1..], key)
  }

  /** The filter keeps exactly the entries under other keys. */
  lemma {:induction false} UnpinMembers(pinned: seq<Location>, key: string)
    ensures forall x :: x in UnpinLocation(pinned, key) <==> x in pinned && LocationKey(x) != key
  {
    if pinned != [] {
      UnpinMembers(pinned[1..], key);
      assert pinned == [pinned[0]] + pinned[1..];
      UnpinCons(pinned[0], pinned[1..], key);
    }
  }

  /** One step of the filter. */
  lemma UnpinCons(x: Location, s: seq<Location>, key: string)
    ensures UnpinLocation([x] + s, key) == (if LocationKey(x) != key then [x] else []) + UnpinLocation(s, key)
  {
    var xs := [x] + s;
    assert xs[0] == x && xs[1..] == s;
  }

  /** Filtering works piecewise, so the kept entries stay in their order. */
  lemma {:induction false} UnpinConcat(a: seq<Location>, b: seq<Location>, key: string)
    ensures UnpinLocation(a + b, key) == UnpinLocation(a, key) + UnpinLocation(b, key)
  {
    if a != [] {
      var ab := a + b;
      assert ab[0] == a[0];
      assert ab[1..] == a[1..] + b;
      UnpinConcat(a[1..], b, key);
    } else {
      assert a + b == b;
    }
  }

  /** Unpinning a key that is not pinned changes nothing. */
  lemma {:induction false} UnpinAbsent(pinned: seq<Location>, key: string)
    requires !IsLocationPinned(pinned, key)
    ensures UnpinLocation(pinned, key) == pinned
  {
    if pinned != [] {
      UnpinAbsent(pinned[1..], key);
      assert [pinned[0]] + pinned[1..] == pinned;
    }
  }

  /** After unpinning, the key is no longer pinned. */
  lemma UnpinRemovesKey(pinned: seq<Location>, key: string)
    ensures !IsLocationPinned(UnpinLocation(pinned, key), key)
  {
    UnpinMembers(pinned, key);
    IsLocationPinnedIff(UnpinLocation(pinned, key), key);
  }

  // ---------------------------------------------------------------------
  // Reorder

  function RemoveAt<T>(s: seq<T>, i: nat): (r: seq<T>)
    requires i < |s|
    ensures |r| == |s| - 1
  {
    s[..i] + s[i + 1..]
  }

  function InsertAt<T>(s: seq<T>, i: nat, x: T): (r: seq<T>)
    requires i <= |s|
    ensures |r| == |s| + 1
  {
    s[..i] + [x] + s[i..]
  }

  /** Where the entries of `s` sit once the one at `i` is removed. */
  lemma RemoveAtIndex<T>(s: seq<T>, i: nat, k: nat)
    requires i < |s| && k < |s| - 1
    ensures RemoveAt(s, i)[k] == s[if k < i then k else k + 1]
  {
  }

  /** `reorderLocations`: `splice(oldIndex, 1)` then `splice(newIndex, 0, removed)`.
      The moved entry lands at `newIndex`, the others keep their relative
      order, and the list is a permutation of the old one. */
  function ReorderLocations(pinned: seq<Location>, oldIndex: nat, newIndex: nat): (r: seq<Location>)
    requires oldIndex < |pinned| && newIndex < |pinned|
    ensures |r| == |pinned|
    ensures r[newIndex] == pinned[oldIndex]
    ensures RemoveAt(r, newIndex) == RemoveAt(pinned, oldIndex)
    ensures multiset(r) == multiset(pinned)
  {
    var moved := pinned[oldIndex];
    var rest := RemoveAt(pinned, oldIndex);
    var r := InsertAt(rest, newIndex, moved);
    assert r[..newIndex] == rest[..newIndex];
    assert r[newIndex + 1..] == rest[newIndex..];
    assert RemoveAt(r, newIndex) == rest;
    assert multiset(r) == multiset(rest[..newIndex]) + multiset{moved} + multiset(rest[newIndex..]);
    assert rest == rest[..newIndex] + rest[newIndex..];
    assert multiset(r) == multiset(rest) + multiset{moved};
    assert pinned == pinned[..oldIndex] + [moved] + pinned[oldIndex + 1..];
    assert multiset(pinned) == multiset(pinned[..oldIndex]) + multiset{moved} + multiset(pinned[oldIndex + 1..]);
    r
  }

  lemma ReorderKeepsKeysUnique(pinned: seq<Location>, oldIndex: nat, newIndex: nat)
    requires oldIndex < |pinned| && newIndex < |pinned|
    requires NoDuplicateKeys(pinned)
    ensures NoDuplicateKeys(ReorderLocations(pinned, oldIndex, newIndex))
  {
    var r := ReorderLocations(pinned, oldIndex, newIndex);
    forall i, j | 0 <= i < j < |r|
      ensures LocationKey(r[i]) != LocationKey(r[j])
    {
      var si := Source(oldIndex, newIndex, i);
      var sj := Source(oldIndex, newIndex, j);
      ReorderSource(pinned, oldIndex, newIndex, i);
      ReorderSource(pinned, oldIndex, newIndex, j);
      assert si != sj;
    }
  }

  /** The index in the old list of the entry found at `k` after the move. */
  function Source(oldIndex: nat, newIndex: nat, k: nat): nat {
    if k == newIndex then oldIndex
    else
      var j := if k < newIndex then k else k - 1;
      if j < oldIndex then j else j + 1
  }

  /** Every entry after the move comes from the old list, and apart from the
      moved one the order is kept: `Source` is increasing off `newIndex`. */
  lemma ReorderSource(pinned: seq<Location>, oldIndex: nat, newIndex: nat, k: nat)
    requires oldIndex < |pinned| && newIndex < |pinned| && k < |pinned|
    ensures Source(oldIndex, newIndex, k) < |pinned|
    ensures ReorderLocations(pinned, oldIndex, newIndex)[k] == pinned[Source(oldIndex, newIndex, k)]
  {
    var r := ReorderLocations(pinned, oldIndex, newIndex);
    if k != newIndex {
      var j := if k < newIndex then k else k - 1;
      assert r[k] == RemoveAt(r, newIndex)[j];
      RemoveAtIndex(pinned, oldIndex, j);
    }
  }

  // ---------------------------------------------------------------------
  // Clear

  /** `clearAllPinned` */
  function ClearAllPinned(): seq<Location> {
    []
  }

  lemma ClearLeavesNothingPinned(key: string)
    ensures !IsLocationPinned(ClearAllPinned(), key)
    ensures NoDuplicateKeys(ClearAllPinned())
  {
  }
}
