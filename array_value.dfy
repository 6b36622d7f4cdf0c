/** `ArrayValue`: the runtime array, a dictionary from string keys to values
    that `SetIndex` and `RemoveIndex` update in place. Its entries are kept in
    enumeration order; its comparer is fixed when it is built. */
module ArrayValues {
  import opened Wrappers
  import opened Values
  import opened ArrayDisplay

  class ArrayValue {
    /** The comparer of the underlying dictionary. */
    const comparer: KeyComparer
    /** The dictionary's entries, in enumeration order. */
    var entries: seq<Entry>

    ghost predicate Valid()
      reads this
    {
      DistinctKeys(comparer, entries)
    }

    /** A new, empty array whose keys are compared ignoring case. */
    constructor ()
      ensures Valid()
      ensures comparer == OrdinalIgnoreCase && entries == []
    {
      comparer := OrdinalIgnoreCase;
      entries := [];
    }

    /** An array over an existing dictionary, with that dictionary's
        comparer. */
    constructor FromContents(contentsComparer: KeyComparer, contents: seq<Entry>)
      requires DistinctKeys(contentsComparer, contents)
      ensures Valid()
      ensures comparer == contentsComparer && entries == contents
    {
      comparer := contentsComparer;
      entries := contents;
    }

    /** `Keys`, in enumeration order. */
    function Keys(): (keys: seq<string>)
      reads this
      ensures |keys| == |entries|
      ensures forall i :: 0 <= i < |keys| ==> keys[i] == entries[i].key
    {
      seq(|entries|, i requires 0 <= i < |entries| reads this => entries[i].key)
    }

    /** `Values`, in the same order as `Keys`. */
    function Values(): (values: seq<BaseValue>)
      reads this
      ensures |values| == |entries|
      ensures forall i :: 0 <= i < |values| ==> values[i] == entries[i].value
    {
      seq(|entries|, i requires 0 <= i < |entries| reads this => entries[i].value)
    }

    /** `Count`: the number of entries. */
    function Count(): (n: nat)
      reads this
      ensures n == |Keys()|
    {
      |entries|
    }

    /** `ContainsKey`: some key equals `key` under the comparer. */
    function ContainsKey(key: string): (b: bool)
      reads this
      ensures b <==> exists i :: 0 <= i < |entries| && KeyEquals(comparer, entries[i].key, key)
    {
      HasKey(comparer, entries, key)
    }

    /** `TryGetValue`. */
    function TryGetValue(key: string): (r: Option<BaseValue>)
      reads this
      requires Valid()
      ensures r.Some? <==> ContainsKey(key)
      ensures forall i :: 0 <= i < |entries| && KeyEquals(comparer, entries[i].key, key) ==> r == Some(entries[i].value)
    {
      Lookup(comparer, entries, key)
    }

    /** The indexer `this[key]`: the stored value, or `KeyNotFound`. */
    function Get(key: string): (r: Result<BaseValue, LookupError>)
      reads this
      requires Valid()
      ensures r.Err? <==> !ContainsKey(key)
      ensures r.Err? ==> r.error == KeyNotFound(key)
      ensures forall i :: 0 <= i < |entries| && KeyEquals(comparer, entries[i].key, key) ==> r == Ok(entries[i].value)
    {
      match TryGetValue(key)
      case Some(v) => Ok(v)
      case None => Err(KeyNotFound(key))
    }

    /** `SetIndex`: the dictionary's indexer assignment. */
    method SetIndex(key: string, value: BaseValue)
      requires Valid()
      modifies this
      ensures Valid()
      ensures entries == SetEntry(comparer, old(entries), key, value)
      ensures forall k :: KeyEquals(comparer, k, key) ==> TryGetValue(k) == Some(value)
      ensures forall k :: !KeyEquals(comparer, k, key) ==> TryGetValue(k) == old(TryGetValue(k))
      ensures Count() == if old(ContainsKey(key)) then old(Count()) else old(Count()) + 1
    {
      SetEntryKeepsKeysDistinct(comparer, entries, key, value);
      forall k | KeyEquals(comparer, k, key)
        ensures Lookup(comparer, SetEntry(comparer, entries, key, value), k) == Some(value)
      {
        SetEntryFindsValue(comparer, entries, key, value, k);
      }
      forall k | !KeyEquals(comparer, k, key)
        ensures Lookup(comparer, SetEntry(comparer, entries, key, value), k) == Lookup(comparer, entries, k)
      {
        SetEntryKeepsOthers(comparer, entries, key, value, k);
      }
      entries := SetEntry(comparer, entries, key, value);
    }

    /** `RemoveIndex`: removes the entry with an equal key, if there is
        one; otherwise nothing changes. */
    method RemoveIndex(key: string)
      requires Valid()
      modifies this
      ensures Valid()
      ensures entries == RemoveEntry(comparer, old(entries), key)
      ensures !ContainsKey(key)
      ensures forall k :: !KeyEquals(comparer, k, key) ==> TryGetValue(k) == old(TryGetValue(k))
      ensures Count() == if old(ContainsKey(key)) then old(Count()) - 1 else old(Count())
    {
      RemoveEntryKeepsKeysDistinct(comparer, entries, key);
      RemoveEntryDropsKey(comparer, entries, key);
      forall k | !KeyEquals(comparer, k, key)
        ensures Lookup(comparer, RemoveEntry(comparer, entries, key), k) == Lookup(comparer, entries, k)
      {
        RemoveEntryKeepsOthers(comparer, entries, key, k);
      }
      if ContainsKey(key) {
        entries := RemoveEntry(comparer, entries, key);
      }
    }

    /** `ToDisplayString`: builds `key=escapedValue;` for every entry in
        order. */
    method ToDisplayString() returns (s: string)
      ensures s == DisplayEntries(entries)
    {
      s := "";
      var i := 0;
      while i < |entries|
        invariant 0 <= i <= |entries|
        invariant s == DisplayEntries(entries[..i])
      {
        var entry := entries[i];
        s := s + entry.key + "=";
        s := AppendEscaped(s, Display(entry.value));
        s := s + ";";
        DisplayEntriesAppend(entries[..i], entry);
        assert entries[..i + 1] == entries[..i] + [entry];
        i := i + 1;
      }
      assert entries[..i] == entries;
    }

    /** `ToBoolean`: an array is never true. */
    function ToBoolean(): (b: bool)
      ensures !b
    {
      false
    }

    /** `ToNumber`: an array counts as zero. */
    function ToNumber(): (n: real)
      ensures n == 0.0
    {
      0.0
    }

    /** `ToArray`: the array itself, not a copy. */
    function ToArray(): (a: ArrayValue)
      ensures a == this
    {
      this
    }
  }

  /** The local `escape` of `ToDisplayString`: appends the escaped value to
      what the builder holds. */
  method AppendEscaped(builder: string, value: string) returns (s: string)
    ensures s == builder + Escape(value)
  {
    s := builder;
    var i := 0;
    while i < |value|
      invariant 0 <= i <= |value|
      invariant s == builder + Escape(value[..i])
    {
      var ch := value[i];
      if IsEscaped(ch) {
        s := s + "\\";
      }
      s := s + [ch];
      assert Escape([ch]) == EscapeChar(ch) by {
        assert Escape([ch]) == EscapeChar(ch) + Escape([]);
      }
      EscapeAppend(value[..i], [ch]);
      assert value[..i + 1] == value[..i] + [ch];
      i := i + 1;
    }
    assert value[..i] == value;
  }

  /** The entries of an empty array after assigning `1` to `"a"`. */
  lemma AssignToEmpty()
    ensures SetEntry(OrdinalIgnoreCase, [], "a", Scalar("1")) == [Entry("a", Scalar("1"))]
  {
    assert IndexOf(OrdinalIgnoreCase, [], "a") == None;
  }

  /** The display of the single entry `"a" -> 1`. */
  lemma DisplayOfOneEntry()
    ensures DisplayEntries([Entry("a", Scalar("1"))]) == "a=1;"
  {
    assert Escape("1") == "1" by {
      assert Escape("1") == EscapeChar('1') + Escape("");
    }
    assert DisplayEntries([Entry("a", Scalar("1"))]) == DisplayEntry(Entry("a", Scalar("1"))) + DisplayEntries([]);
  }

  /** The display of an array holding `"a" -> 1` is `a=1;`. */
  method DisplayAfterOneAssignment() returns (s: string)
    ensures s == "a=1;"
  {
    var arr := new ArrayValue();
    AssignToEmpty();
    arr.SetIndex("a", Scalar("1"));
    s := arr.ToDisplayString();
    DisplayOfOneEntry();
  }
}
