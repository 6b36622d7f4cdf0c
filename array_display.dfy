/** The display string of an array value: `key=escapedValue;` for every entry
    in order, where only the value's display string is escaped (a backslash
    before each `;`, `=` and `\`). A decoder is the partner of the display: it
    recovers every key and value display string, provided no key contains `=`,
    since keys are not escaped. */
module ArrayDisplay {
  import opened Wrappers
  import opened Values

  /** The characters `escape` puts a backslash before. */
  predicate IsEscaped(c: char)
  {
    c == ';' || c == '=' || c == '\\'
  }

  /** What `escape` appends for one character. */
  function EscapeChar(c: char): string
  {
    if IsEscaped(c) then ['\\', c] else [c]
  }

  /** The local `escape`: every character copied, with a backslash before
      each `;`, `=` and `\`. */
  function Escape(value: string): (r: string)
    ensures |r| >= |value|
  {
    if |value| == 0 then "" else EscapeChar(value[0]) + Escape(value[1..])
  }

  /** How many characters of `value` need a backslash. */
  function EscapedCount(value: string): nat
  {
    if |value| == 0 then 0 else (if IsEscaped(value[0]) then 1 else 0) + EscapedCount(value[1..])
  }

  /** Drops the backslash before each escaped character; the partner of
      `Escape`. */
  function Unescape(s: string): string
  {
    if |s| == 0 then ""
    else if s[0] == '\\' && |s| >= 2 then [s[1]] + Unescape(s[2..])
    else [s[0]] + Unescape(s[1..])
  }

  /** The escaped string is the value plus one backslash per `;`, `=`, `\`. */
  lemma {:induction false} EscapeLength(value: string)
    ensures |Escape(value)| == |value| + EscapedCount(value)
  {
    if |value| > 0 {
      EscapeLength(value[1..]);
    }
  }

  /** Escaping works character by character. */
  lemma {:induction false} EscapeAppend(a: string, b: string)
    ensures Escape(a + b) == Escape(a) + Escape(b)
  {
    if |a| > 0 {
      assert (a + b)[1..] == a[1..] + b;
      EscapeAppend(a[1..], b);
    } else {
      assert a + b == b;
    }
  }

  /** Unescaping the escaped value gives the value back. */
  lemma {:induction false} UnescapeEscape(value: string)
    ensures Unescape(Escape(value)) == value
  {
    if |value| > 0 {
      var e := Escape(value);
      UnescapeEscape(value[1..]);
      if IsEscaped(value[0]) {
        assert e[2..] == Escape(value[1..]);
      } else {
        assert e[1..] == Escape(value[1..]);
      }
      assert [value[0]] + value[1..] == value;
    }
  }

  /** A value with nothing to escape is copied as it is. */
  lemma {:induction false} EscapeOfPlain(value: string)
    requires forall i :: 0 <= i < |value| ==> !IsEscaped(value[i])
    ensures Escape(value) == value
  {
    if |value| > 0 {
      EscapeOfPlain(value[1..]);
      assert [value[0]] + value[1..] == value;
    }
  }

  /** Hence `escape` is injective. */
  lemma EscapeInjective(a: string, b: string)
    requires Escape(a) == Escape(b)
    ensures a == b
  {
    UnescapeEscape(a);
    UnescapeEscape(b);
  }

  // ---------------------------------------------------------------------
  // Display of values

  /** `ToDisplayString` of a value: a scalar's own display string, or the
      entries of a nested array. */
  function Display(value: BaseValue): string
  {
    match value
    case Scalar(d) => d
    case Nested(_, entries) => DisplayEntries(entries)
  }

  /** One entry: the key as it is, `=`, the escaped value display, `;`. */
  function DisplayEntry(entry: Entry): (r: string)
    ensures |r| >= |entry.key| + 2
  {
    entry.key + "=" + Escape(Display(entry.value)) + ";"
  }

  /** The entries in order; an empty array displays as `""`. */
  function DisplayEntries(entries: seq<Entry>): (r: string)
    ensures r == "" <==> |entries| == 0
  {
    if |entries| == 0 then "" else DisplayEntry(entries[0]) + DisplayEntries(entries[1..])
  }

  /** The display grows entry by entry, which is how `ToDisplayString`
      builds it. */
  lemma {:induction false} DisplayEntriesAppend(entries: seq<Entry>, entry: Entry)
    ensures DisplayEntries(entries + [entry]) == DisplayEntries(entries) + DisplayEntry(entry)
  {
    if |entries| > 0 {
      assert (entries + [entry])[1..] == entries[1..] + [entry];
      DisplayEntriesAppend(entries[1..], entry);
    } else {
      assert (entries + [entry])[1..] == [];
    }
  }

  // ---------------------------------------------------------------------
  // Decoding

  /** Reads a key up to the first `=`. */
  function ReadKey(s: string): (r: Option<(string, string)>)
    ensures r.Some? ==> |r.value.1| < |s|
  {
    if |s| == 0 then None
    else if s[0] == '=' then Some(("", s[1..]))
    else
      match ReadKey(s[1..])
      case None => None
      case Some((key, rest)) => Some(([s[0]] + key, rest))
  }

  /** Reads an escaped value up to the first `;` not preceded by a backslash,
      unescaping as it goes. */
  function ReadValue(s: string): (r: Option<(string, string)>)
    ensures r.Some? ==> |r.value.1| < |s|
  {
    if |s| == 0 then None
    else if s[0] == ';' then Some(("", s[1..]))
    else if s[0] == '\\' && |s| >= 2 then
      match ReadValue(s[2..])
      case None => None
      case Some((value, rest)) => Some(([s[1]] + value, rest))
    else
      match ReadValue(s[1..])
      case None => None
      case Some((value, rest)) => Some(([s[0]] + value, rest))
  }

  /** Reads a whole display string back into (key, value display) pairs. */
  function Decode(s: string): Option<seq<(string, string)>>
    decreases |s|
  {
    if |s| == 0 then Some([])
    else
      match ReadKey(s)
      case None => None
      case Some((key, afterKey)) =>
        match ReadValue(afterKey)
        case None => None
        case Some((value, rest)) =>
          match Decode(rest)
          case None => None
          case Some(pairs) => Some([(key, value)] + pairs)
  }

  /** The (key, value display) pairs the display string is made of. */
  function Pairs(entries: seq<Entry>): seq<(string, string)>
  {
    if |entries| == 0 then [] else [(entries[0].key, Display(entries[0].value))] + Pairs(entries[1..])
  }

  lemma {:induction false} ReadKeyOfKey(key: string, rest: string)
    requires '=' !in key
    ensures ReadKey(key + "=" + rest) == Some((key, rest))
  {
    if |key| > 0 {
      assert (key + "=" + rest)[1..] == key[1..] + "=" + rest;
      ReadKeyOfKey(key[1..], rest);
      assert [key[0]] + key[1..] == key;
    } else {
      assert key + "=" + rest == "=" + rest;
    }
  }

  lemma {:induction false} ReadValueOfEscaped(value: string, rest: string)
    ensures ReadValue(Escape(value) + ";" + rest) == Some((value, rest))
  {
    var s := Escape(value) + ";" + rest;
    if |value| == 0 {
      assert s == ";" + rest;
    } else {
      ReadValueOfEscaped(value[1..], rest);
      var tail := Escape(value[1..]) + ";" + rest;
      assert s == EscapeChar(value[0]) + tail;
      if IsEscaped(value[0]) {
        assert s[2..] == tail;
      } else {
        assert s[1..] == tail;
      }
      assert [value[0]] + value[1..] == value;
    }
  }

  /** One entry's display reads back as its key and its value's display
      when the key holds no `=`. */
  lemma DisplayEntryRoundTrip(entry: Entry)
    requires '=' !in entry.key
    ensures Decode(DisplayEntry(entry)) == Some([(entry.key, Display(entry.value))])
  {
    var v := Display(entry.value);
    var s := DisplayEntry(entry);
    var afterKey := Escape(v) + ";" + "";
    assert s == entry.key + "=" + afterKey;
    ReadKeyOfKey(entry.key, afterKey);
    ReadValueOfEscaped(v, "");
    assert ReadKey(s) == Some((entry.key, afterKey));
    assert ReadValue(afterKey) == Some((v, ""));
    assert Decode("") == Some([]);
    assert Decode(s) == Some([(entry.key, v)] + []);
    assert [(entry.key, v)] + [] == [(entry.key, v)];
  }

  /** The display is decodable: as long as no key contains `=`, decoding
      the display string gives back every key and every value's display
      string, in order. */
  lemma {:induction false} DecodeDisplay(entries: seq<Entry>)
    requires forall i :: 0 <= i < |entries| ==> '=' !in entries[i].key
    ensures Decode(DisplayEntries(entries)) == Some(Pairs(entries))
  {
    if |entries| > 0 {
      var e := entries[0];
      var v := Display(e.value);
      var rest := DisplayEntries(entries[1..]);
      DecodeDisplay(entries[1..]);
      assert DisplayEntries(entries) == e.key + "=" + (Escape(v) + ";" + rest);
      ReadKeyOfKey(e.key, Escape(v) + ";" + rest);
      ReadValueOfEscaped(v, rest);
    }
  }

  /** Because keys are not escaped, a key holding `=` and `;` makes two
      different arrays display alike: `{"x=1;y": 2}` and `{"x": 1, "y": 2}`
      both display as `x=1;y=2;`. */
  /** A one-character scalar with nothing to escape displays as itself. */
  lemma DisplayOfPlainScalar(key: string, c: char)
    requires !IsEscaped(c)
    ensures DisplayEntry(Entry(key, Scalar([c]))) == key + "=" + [c] + ";"
  {
    assert Escape([c]) == EscapeChar(c) + Escape("");
  }

  /** Only `=` in a key can make two arrays display alike: with no `=` in
      any key (a `;` is fine), equal displays mean the same keys and value
      displays in the same order. */
  lemma KeysWithoutEqualsNeverCollide(a: seq<Entry>, b: seq<Entry>)
    requires forall i :: 0 <= i < |a| ==> '=' !in a[i].key
    requires forall i :: 0 <= i < |b| ==> '=' !in b[i].key
    requires DisplayEntries(a) == DisplayEntries(b)
    ensures Pairs(a) == Pairs(b)
  {
    DecodeDisplay(a);
    DecodeDisplay(b);
  }

  /** Two entries display as the first entry's display, then the second's. */
  lemma DisplayOfTwoEntries(first: Entry, second: Entry)
    ensures DisplayEntries([first, second]) == DisplayEntry(first) + DisplayEntry(second)
  {
    assert [first, second][1..] == [second];
    assert [second][1..] == [];
  }

  lemma UnescapedKeysCollide()
    ensures DisplayEntries([Entry("x=1;y", Scalar("2"))])
         == DisplayEntries([Entry("x", Scalar("1")), Entry("y", Scalar("2"))])
         == "x=1;y=2;"
  {
    var joined := Entry("x=1;y", Scalar("2"));
    DisplayOfPlainScalar("x=1;y", '2');
    DisplayOfPlainScalar("x", '1');
    DisplayOfPlainScalar("y", '2');
    DisplayOfTwoEntries(Entry("x", Scalar("1")), Entry("y", Scalar("2")));
    assert [joined][1..] == [];
    assert DisplayEntries([joined]) == DisplayEntry(joined) + "";
  }
}
