/** The contents of a runtime array value: an ordered association list from
    string keys to values, keyed through a comparer (case-insensitive for
    every array the language creates), with the lookup, overwrite and removal
    that `ArrayValue` performs on it. */
module Values {
  import opened Wrappers

  /** The comparer of the underlying dictionary. */
  datatype KeyComparer = OrdinalIgnoreCase | Ordinal

  /** Upper-case mapping used by the case-insensitive comparer (ASCII). */
  function UpperChar(c: char): char
  {
    if 'a' <= c <= 'z' then (c as int - 32) as char else c
  }

  /** The key as the case-insensitive comparer sees it. */
  function Fold(s: string): string
  {
    seq(|s|, i requires 0 <= i < |s| => UpperChar(s[i]))
  }

  /** Whether the comparer considers two keys the same. */
  predicate KeyEquals(comparer: KeyComparer, a: string, b: string)
    ensures a == b ==> KeyEquals(comparer, a, b)
    ensures comparer == Ordinal ==> (KeyEquals(comparer, a, b) <==> a == b)
    ensures KeyEquals(comparer, a, b) ==> |a| == |b|
  {
    match comparer
    case Ordinal => a == b
    case OrdinalIgnoreCase => Fold(a) == Fold(b)
  }

  /** Both comparers are equivalence relations, and ignoring case only
      identifies more keys than ordinal comparison does. */
  lemma KeyEqualsIsEquivalence(comparer: KeyComparer, a: string, b: string, c: string)
    ensures KeyEquals(comparer, a, a)
    ensures KeyEquals(comparer, a, b) ==> KeyEquals(comparer, b, a)
    ensures KeyEquals(comparer, a, b) && KeyEquals(comparer, b, c) ==> KeyEquals(comparer, a, c)
    ensures a == b ==> KeyEquals(OrdinalIgnoreCase, a, b)
  {
  }

  /** A runtime value as an array sees it. Numbers, strings and booleans are
      represented by their display string, the only thing an array observes of
      them; a nested array is held by value (its comparer and entries). */
  datatype BaseValue =
    | Scalar(display: string)
    | Nested(comparer: KeyComparer, entries: seq<Entry>)

  /** One key/value pair, in enumeration order. */
  datatype Entry = Entry(key: string, value: BaseValue)

  /** The dictionary invariant: no two entries have keys the comparer
      considers equal. */
  predicate DistinctKeys(comparer: KeyComparer, entries: seq<Entry>)
  {
    forall i, j :: 0 <= i < j < |entries| ==> !KeyEquals(comparer, entries[i].key, entries[j].key)
  }

  /** The position of the entry whose key equals `key`, if any. */
  function IndexOf(comparer: KeyComparer, entries: seq<Entry>, key: string): (r: Option<nat>)
    ensures r.Some? ==> r.value < |entries| && KeyEquals(comparer, entries[r.value].key, key)
    ensures r.Some? ==> forall j :: 0 <= j < r.value ==> !KeyEquals(comparer, entries[j].key, key)
    ensures r.None? <==> forall j :: 0 <= j < |entries| ==> !KeyEquals(comparer, entries[j].key, key)
  {
    if |entries| == 0 then None
    else if KeyEquals(comparer, entries[0].key, key) then Some(0)
    else
      match IndexOf(comparer, entries[1..], key)
      case None => None
      case Some(i) => Some(i + 1)
  }

  /** `ContainsKey`. */
  predicate HasKey(comparer: KeyComparer, entries: seq<Entry>, key: string)
    ensures HasKey(comparer, entries, key) <==> exists j :: 0 <= j < |entries| && KeyEquals(comparer, entries[j].key, key)
  {
    IndexOf(comparer, entries, key).Some?
  }

  /** `TryGetValue`: the value stored under a key equal to `key`. */
  function Lookup(comparer: KeyComparer, entries: seq<Entry>, key: string): (r: Option<BaseValue>)
    ensures r.Some? <==> HasKey(comparer, entries, key)
  {
    match IndexOf(comparer, entries, key)
    case Some(i) => Some(entries[i].value)
    case None => None
  }

  /** The dictionary's indexer assignment: an existing entry keeps its
      position and its original key and gets the new value; a new key is
      appended. */
  function SetEntry(comparer: KeyComparer, entries: seq<Entry>, key: string, value: BaseValue): (r: seq<Entry>)
    ensures |r| == if HasKey(comparer, entries, key) then |entries| else |entries| + 1
    ensures forall j :: 0 <= j < |entries| ==> r[j].key == entries[j].key
    ensures !HasKey(comparer, entries, key) ==> r[|entries|] == Entry(key, value)
    ensures exists j :: 0 <= j < |r| && KeyEquals(comparer, r[j].key, key) && r[j].value == value
  {
    match IndexOf(comparer, entries, key)
    case Some(i) => entries[i := Entry(entries[i].key, value)]
    case None => entries + [Entry(key, value)]
  }

  /** The dictionary's `Remove`: drops the entry with an equal key, if any. */
  function RemoveEntry(comparer: KeyComparer, entries: seq<Entry>, key: string): (r: seq<Entry>)
    ensures |r| == if HasKey(comparer, entries, key) then |entries| - 1 else |entries|
    ensures !HasKey(comparer, entries, key) ==> r == entries
    ensures forall e :: e in r ==> e in entries
  {
    match IndexOf(comparer, entries, key)
    case Some(i) => entries[..i] + entries[i + 1..]
    case None => entries
  }

  /** Under distinct keys, the entry at `i` is the one every key equal to
      its key finds. */
  lemma {:induction false} IndexOfUnique(comparer: KeyComparer, entries: seq<Entry>, i: nat, key: string)
    requires DistinctKeys(comparer, entries)
    requires i < |entries| && KeyEquals(comparer, entries[i].key, key)
    ensures IndexOf(comparer, entries, key) == Some(i)
  {
    KeyEqualsIsEquivalence(comparer, entries[i].key, key, key);
    forall j | 0 <= j < i
      ensures !KeyEquals(comparer, entries[j].key, key)
    {
      KeyEqualsIsEquivalence(comparer, entries[j].key, key, entries[i].key);
    }
  }

  /** Under distinct keys, looking up any key equal to an entry's key gives
      that entry's value. */
  lemma LookupFindsEntry(comparer: KeyComparer, entries: seq<Entry>, j: nat, key: string)
    requires DistinctKeys(comparer, entries)
    requires j < |entries| && KeyEquals(comparer, entries[j].key, key)
    ensures Lookup(comparer, entries, key) == Some(entries[j].value)
  {
    IndexOfUnique(comparer, entries, j, key);
  }


  /** `SetEntry` keeps the keys distinct, keeps the original keys in their
      positions, and grows the count by one exactly when no equal key was
      present. */
  lemma SetEntryKeepsKeysDistinct(comparer: KeyComparer, entries: seq<Entry>, key: string, value: BaseValue)
    requires DistinctKeys(comparer, entries)
    ensures DistinctKeys(comparer, SetEntry(comparer, entries, key, value))
    ensures |SetEntry(comparer, entries, key, value)| == if HasKey(comparer, entries, key) then |entries| else |entries| + 1
    ensures forall j :: 0 <= j < |entries| ==> SetEntry(comparer, entries, key, value)[j].key == entries[j].key
  {
    var after := SetEntry(comparer, entries, key, value);
    if IndexOf(comparer, entries, key).None? {
      forall a, b | 0 <= a < b < |after|
        ensures !KeyEquals(comparer, after[a].key, after[b].key)
      {
        if b == |entries| {
          KeyEqualsIsEquivalence(comparer, after[a].key, key, key);
        }
      }
    }
  }

  /** After `SetEntry`, every key equal to `key` finds `value`. */
  lemma SetEntryFindsValue(comparer: KeyComparer, entries: seq<Entry>, key: string, value: BaseValue, other: string)
    requires DistinctKeys(comparer, entries)
    requires KeyEquals(comparer, other, key)
    ensures Lookup(comparer, SetEntry(comparer, entries, key, value), other) == Some(value)
  {
    var after := SetEntry(comparer, entries, key, value);
    SetEntryKeepsKeysDistinct(comparer, entries, key, value);
    match IndexOf(comparer, entries, key)
    case Some(i) =>
      KeyEqualsIsEquivalence(comparer, after[i].key, key, other);
      KeyEqualsIsEquivalence(comparer, other, key, key);
      IndexOfUnique(comparer, after, i, other);
    case None =>
      KeyEqualsIsEquivalence(comparer, key, other, key);
      IndexOfUnique(comparer, after, |entries|, other);
  }

  /** After `SetEntry`, a key not equal to `key` finds what it found before. */
  lemma SetEntryKeepsOthers(comparer: KeyComparer, entries: seq<Entry>, key: string, value: BaseValue, other: string)
    requires DistinctKeys(comparer, entries)
    requires !KeyEquals(comparer, other, key)
    ensures Lookup(comparer, SetEntry(comparer, entries, key, value), other) == Lookup(comparer, entries, other)
  {
    var after := SetEntry(comparer, entries, key, value);
    SetEntryKeepsKeysDistinct(comparer, entries, key, value);
    var r := IndexOf(comparer, entries, other);
    if r.Some? {
      IndexOfUnique(comparer, after, r.value, other);
    } else {
      KeyEqualsIsEquivalence(comparer, other, key, key);
      assert IndexOf(comparer, after, other).None?;
    }
  }

  /** `RemoveEntry` keeps the keys distinct and drops the count by one
      exactly when an equal key was present. */
  lemma RemoveEntryKeepsKeysDistinct(comparer: KeyComparer, entries: seq<Entry>, key: string)
    requires DistinctKeys(comparer, entries)
    ensures DistinctKeys(comparer, RemoveEntry(comparer, entries, key))
    ensures |RemoveEntry(comparer, entries, key)| == if HasKey(comparer, entries, key) then |entries| - 1 else |entries|
  {
    match IndexOf(comparer, entries, key)
    case None =>
    case Some(i) =>
      var after := RemoveEntry(comparer, entries, key);
      assert forall j :: 0 <= j < |after| ==> after[j] == entries[if j < i then j else j + 1];
  }

  /** After `RemoveEntry` no key equal to `key` is present. */
  lemma RemoveEntryDropsKey(comparer: KeyComparer, entries: seq<Entry>, key: string)
    requires DistinctKeys(comparer, entries)
    ensures !HasKey(comparer, RemoveEntry(comparer, entries, key), key)
  {
    match IndexOf(comparer, entries, key)
    case None =>
    case Some(i) =>
      var after := RemoveEntry(comparer, entries, key);
      forall j | 0 <= j < |after| ensures !KeyEquals(comparer, after[j].key, key) {
        var src := if j < i then j else j + 1;
        assert after[j] == entries[src];
        KeyEqualsIsEquivalence(comparer, entries[src].key, key, entries[i].key);
        KeyEqualsIsEquivalence(comparer, entries[i].key, key, key);
      }
  }

  /** Removing the entry at `i` shifts every later entry down by one. */
  lemma RemovedAt(entries: seq<Entry>, i: nat, j: nat)
    requires i < |entries| && j < |entries| - 1
    ensures (entries[..i] + entries[i + 1..])[j] == entries[if j < i then j else j + 1]
  {
  }

  /** After removing the entry at `i`, a key found at `r != i` is found at its
      shifted position. */
  lemma RemovedAtFinds(comparer: KeyComparer, entries: seq<Entry>, i: nat, r: nat, other: string)
    requires DistinctKeys(comparer, entries)
    requires i < |entries| && r < |entries| && r != i
    requires KeyEquals(comparer, entries[r].key, other)
    ensures DistinctKeys(comparer, entries[..i] + entries[i + 1..])
    ensures IndexOf(comparer, entries[..i] + entries[i + 1..], other) == Some(if r < i then r else r - 1)
  {
    var after := entries[..i] + entries[i + 1..];
    forall a, b | 0 <= a < b < |after|
      ensures !KeyEquals(comparer, after[a].key, after[b].key)
    {
      RemovedAt(entries, i, a);
      RemovedAt(entries, i, b);
    }
    var j: nat := if r < i then r else r - 1;
    RemovedAt(entries, i, j);
    IndexOfUnique(comparer, after, j, other);
  }

  /** After removing the entry at `i`, a key found nowhere is still absent. */
  lemma RemovedAtMisses(comparer: KeyComparer, entries: seq<Entry>, i: nat, other: string)
    requires i < |entries|
    requires forall j :: 0 <= j < |entries| ==> !KeyEquals(comparer, entries[j].key, other)
    ensures IndexOf(comparer, entries[..i] + entries[i + 1..], other).None?
  {
    var after := entries[..i] + entries[i + 1..];
    forall j | 0 <= j < |after|
      ensures !KeyEquals(comparer, after[j].key, other)
    {
      RemovedAt(entries, i, j);
    }
  }

  /** Removing the entry at `i` leaves the lookup of a key not equal to
      its key as it was. */
  lemma RemoveAtKeepsLookup(comparer: KeyComparer, entries: seq<Entry>, i: nat, other: string)
    requires DistinctKeys(comparer, entries)
    requires i < |entries| && !KeyEquals(comparer, entries[i].key, other)
    ensures Lookup(comparer, entries[..i] + entries[i + 1..], other) == Lookup(comparer, entries, other)
  {
    var after := entries[..i] + entries[i + 1..];
    match IndexOf(comparer, entries, other)
    case Some(r) =>
      var j: nat := if r < i then r else r - 1;
      RemovedAtFinds(comparer, entries, i, r, other);
      RemovedAt(entries, i, j);
    case None =>
      RemovedAtMisses(comparer, entries, i, other);
  }

  /** After `RemoveEntry`, a key not equal to `key` finds what it found
      before. */
  lemma RemoveEntryKeepsOthers(comparer: KeyComparer, entries: seq<Entry>, key: string, other: string)
    requires DistinctKeys(comparer, entries)
    requires !KeyEquals(comparer, other, key)
    ensures Lookup(comparer, RemoveEntry(comparer, entries, key), other) == Lookup(comparer, entries, other)
  {
    match IndexOf(comparer, entries, key)
    case None =>
    case Some(i) =>
      KeyEqualsIsEquivalence(comparer, entries[i].key, other, key);
      KeyEqualsIsEquivalence(comparer, other, entries[i].key, key);
      RemoveAtKeepsLookup(comparer, entries, i, other);
  }

  /** Overwriting keeps the key's original spelling and position: setting
      `"KEY"` after `"Key"` leaves one entry, still spelled `"Key"`. */
  lemma OverwriteKeepsOriginalKey(a: BaseValue, b: BaseValue)
    ensures SetEntry(OrdinalIgnoreCase, SetEntry(OrdinalIgnoreCase, [], "Key", a), "KEY", b) == [Entry("Key", b)]
  {
    assert Fold("Key") == Fold("KEY") by {
      assert Fold("Key") == "KEY";
      assert Fold("KEY") == "KEY";
    }
  }
}
