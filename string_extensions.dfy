/** The string helpers of `StringExtensions`: joining, prefix and suffix
    removal, lower-casing the first character, and display strings. Comparisons
    are ordinal and lower-casing is ASCII-only (see README, "Left out"). */
module StringExtensions {
  import opened Wrappers

  /** The exceptions these helpers throw. */
  datatype StringError =
    | ArgumentException(message: string)
    | IndexOutOfRange

  // ---------------------------------------------------------------------
  // Join

  /** `string.Join(separator, values)`: the elements in order, with the
      separator between consecutive elements only. */
  function Join(values: seq<string>, separator: string): (r: string)
    ensures |values| == 0 ==> r == ""
    ensures |values| > 0 ==> values[0] <= r
  {
    if |values| == 0 then ""
    else if |values| == 1 then values[0]
    else values[0] + separator + Join(values[1..], separator)
  }

  /** Sum of the lengths of the elements. */
  function TotalLength(values: seq<string>): nat
  {
    if |values| == 0 then 0 else |values[0]| + TotalLength(values[1..])
  }

  /** Plain concatenation, the meaning of the default separator `""`. */
  function Concat(values: seq<string>): string
  {
    if |values| == 0 then "" else values[0] + Concat(values[1..])
  }

  /** Splits at every occurrence of `c`; the partner of `Join` with a
      one-character separator. */
  function Split(s: string, c: char): (parts: seq<string>)
    ensures |parts| > 0
  {
    if |s| == 0 then [""]
    else
      var tail := Split(s[1..], c);
      if s[0] == c then [""] + tail else [[s[0]] + tail[0]] + tail[1..]
  }

  /** The joined string holds every character of every element and one
      separator per gap between consecutive elements. */
  lemma {:induction false} JoinLength(values: seq<string>, separator: string)
    requires |values| > 0
    ensures |Join(values, separator)| == TotalLength(values) + (|values| - 1) * |separator|
  {
    if |values| > 1 {
      JoinLength(values[1..], separator);
    }
  }

  /** Joining two non-empty runs puts exactly one separator between them. */
  lemma {:induction false} JoinAppend(a: seq<string>, b: seq<string>, separator: string)
    requires |a| > 0 && |b| > 0
    ensures Join(a + b, separator) == Join(a, separator) + separator + Join(b, separator)
  {
    if |a| == 1 {
      assert (a + b)[1..] == b;
    } else {
      assert (a + b)[1..] == a[1..] + b;
      JoinAppend(a[1..], b, separator);
    }
  }

  /** With the default separator `""`, `Join` is concatenation. */
  lemma {:induction false} JoinWithoutSeparatorIsConcat(values: seq<string>)
    ensures Join(values, "") == Concat(values)
  {
    if |values| > 1 {
      JoinWithoutSeparatorIsConcat(values[1..]);
    } else if |values| == 1 {
      assert values[1..] == [];
    }
  }

  lemma {:induction false} SplitAfterFree(x: string, y: string, c: char)
    requires c !in x
    ensures Split(x + [c] + y, c) == [x] + Split(y, c)
  {
    if |x| == 0 {
      assert x + [c] + y == [c] + y;
      assert ([c] + y)[1..] == y;
    } else {
      assert (x + [c] + y)[1..] == x[1..] + [c] + y;
      SplitAfterFree(x[1..], y, c);
      assert [x[0]] + x[1..] == x;
    }
  }

  lemma {:induction false} SplitFree(x: string, c: char)
    requires c !in x
    ensures Split(x, c) == [x]
  {
    if |x| > 0 {
      SplitFree(x[1..], c);
      assert [x[0]] + x[1..] == x;
    }
  }

  /** The separator appears only between elements: when no element contains
      the one-character separator, splitting the joined string gives the
      elements back. */
  lemma {:induction false} JoinSplitRoundTrip(values: seq<string>, c: char)
    requires |values| > 0
    requires forall i :: 0 <= i < |values| ==> c !in values[i]
    ensures Split(Join(values, [c]), c) == values
  {
    if |values| == 1 {
      SplitFree(values[0], c);
    } else {
      JoinSplitRoundTrip(values[1..], c);
      SplitAfterFree(values[0], Join(values[1..], [c]), c);
      assert [values[0]] + values[1..] == values;
    }
  }

  // ---------------------------------------------------------------------
  // ToLowerFirstChar

  predicate IsUpper(c: char)
  {
    'A' <= c <= 'Z'
  }

  /** `char.ToLowerInvariant`, on the ASCII letters. */
  function LowerChar(c: char): (r: char)
    ensures !IsUpper(r)
    ensures !IsUpper(c) ==> r == c
    ensures IsUpper(c) ==> r == "abcdefghijklmnopqrstuvwxyz"[c as int - 'A' as int]
  {
    if IsUpper(c) then (c as int + 32) as char else c
  }

  /** `value[0]` throws on the empty string; otherwise only the first
      character is lowered. */
  function ToLowerFirstChar(value: string): (r: Result<string, StringError>)
    ensures r.Err? <==> |value| == 0
    ensures r.Err? ==> r.error == IndexOutOfRange
    ensures r.Ok? ==> |r.value| == |value|
    ensures r.Ok? ==> !IsUpper(r.value[0]) && r.value[0] == LowerChar(value[0])
    ensures r.Ok? ==> forall i :: 1 <= i < |value| ==> r.value[i] == value[i]
  {
    if |value| == 0 then Err(IndexOutOfRange)
    else Ok([LowerChar(value[0])] + value[1..])
  }

  /** Lowering the first character twice is the same as doing it once. */
  lemma ToLowerFirstCharIdempotent(value: string)
    requires |value| > 0
    ensures ToLowerFirstChar(ToLowerFirstChar(value).value) == ToLowerFirstChar(value)
  {
    var once := ToLowerFirstChar(value).value;
    assert [once[0]] + once[1..] == once;
  }

  // ---------------------------------------------------------------------
  // RemovePrefix / RemoveSuffix

  predicate StartsWith(value: string, prefix: string)
  {
    |prefix| <= |value| && value[..|prefix|] == prefix
  }

  predicate EndsWith(value: string, suffix: string)
  {
    |suffix| <= |value| && value[|value| - |suffix|..] == suffix
  }

  /** The message of the exception `RemovePrefix` throws. */
  function NoPrefixMessage(value: string, prefix: string): string
  {
    "Value '" + value + "' does not start with prefix '" + prefix + "'."
  }

  /** The message of the exception `RemoveSuffix` throws. */
  function NoSuffixMessage(value: string, suffix: string): string
  {
    "Value '" + value + "' does not end with suffix '" + suffix + "'."
  }

  /** Drops a prefix the value must start with; throws otherwise. */
  function RemovePrefix(value: string, prefix: string): (r: Result<string, StringError>)
    ensures r.Ok? <==> StartsWith(value, prefix)
    ensures r.Ok? ==> prefix + r.value == value && |r.value| == |value| - |prefix|
    ensures r.Err? ==> r.error == ArgumentException(NoPrefixMessage(value, prefix))
  {
    if !StartsWith(value, prefix) then Err(ArgumentException(NoPrefixMessage(value, prefix)))
    else Ok(value[|prefix|..])
  }

  /** Drops a suffix the value must end with; throws otherwise. */
  function RemoveSuffix(value: string, suffix: string): (r: Result<string, StringError>)
    ensures r.Ok? <==> EndsWith(value, suffix)
    ensures r.Ok? ==> r.value + suffix == value && |r.value| == |value| - |suffix|
    ensures r.Err? ==> r.error == ArgumentException(NoSuffixMessage(value, suffix))
  {
    if !EndsWith(value, suffix) then Err(ArgumentException(NoSuffixMessage(value, suffix)))
    else Ok(value[..|value| - |suffix|])
  }

  /** Removing a prefix undoes prepending it. */
  lemma PrependThenRemovePrefix(prefix: string, rest: string)
    ensures RemovePrefix(prefix + rest, prefix) == Ok(rest)
  {
    assert (prefix + rest)[..|prefix|] == prefix;
    assert (prefix + rest)[|prefix|..] == rest;
  }

  /** Removing a suffix undoes appending it. */
  lemma AppendThenRemoveSuffix(rest: string, suffix: string)
    ensures RemoveSuffix(rest + suffix, suffix) == Ok(rest)
  {
    assert (rest + suffix)[|rest|..] == suffix;
    assert (rest + suffix)[..|rest|] == rest;
  }

  // ---------------------------------------------------------------------
  // Display strings

  /** `ToDisplayString` on a string is the string itself. */
  function ToDisplayString(value: string): (r: string)
    ensures r == value
  {
    value
  }

  /** `ToDisplayString` on a character is that one character. */
  function CharToDisplayString(value: char): (r: string)
    ensures |r| == 1 && r[0] == value
  {
    [value]
  }

  predicate IsDigit(c: char)
  {
    '0' <= c <= '9'
  }

  function DigitChar(d: nat): (c: char)
    requires d < 10
    ensures IsDigit(c)
  {
    ('0' as int + d) as char
  }

  function DigitValue(c: char): (d: nat)
    requires IsDigit(c)
    ensures d < 10 && DigitChar(d) == c
  {
    c as int - '0' as int
  }

  /** The decimal digits of a natural number, most significant first. */
  function NatToDigits(n: nat): (s: string)
    ensures |s| > 0
    ensures forall i :: 0 <= i < |s| ==> IsDigit(s[i])
  {
    if n < 10 then [DigitChar(n)] else NatToDigits(n / 10) + [DigitChar(n % 10)]
  }

  /** `ToDisplayString` on an `int`, in the invariant culture: an optional
      minus sign followed by the decimal digits. */
  function IntToDisplayString(value: int): (r: string)
    ensures |r| > 0
    ensures r[0] == '-' <==> value < 0
  {
    if value < 0 then "-" + NatToDigits(-value) else NatToDigits(value)
  }

  /** Reads a non-empty run of decimal digits. */
  function DigitsToNat(s: string): nat
    requires |s| > 0
    requires forall i :: 0 <= i < |s| ==> IsDigit(s[i])
  {
    if |s| == 1 then DigitValue(s[0])
    else DigitsToNat(s[..|s| - 1]) * 10 + DigitValue(s[|s| - 1])
  }

  /** Parses what `IntToDisplayString` prints; the partner of that function. */
  function ParseInt(s: string): Option<int>
  {
    if |s| > 1 && s[0] == '-' && forall i :: 1 <= i < |s| ==> IsDigit(s[i]) then
      Some(-(DigitsToNat(s[1..]) as int))
    else if |s| > 0 && forall i :: 0 <= i < |s| ==> IsDigit(s[i]) then
      Some(DigitsToNat(s))
    else None
  }

  lemma {:induction false} DigitsRoundTrip(n: nat)
    ensures DigitsToNat(NatToDigits(n)) == n
  {
    if n >= 10 {
      var s := NatToDigits(n);
      DigitsRoundTrip(n / 10);
      assert s[..|s| - 1] == NatToDigits(n / 10);
    }
  }

  /** Printing an integer and parsing it back gives the integer. */
  lemma IntDisplayRoundTrip(value: int)
    ensures ParseInt(IntToDisplayString(value)) == Some(value)
  {
    var s := IntToDisplayString(value);
    if value < 0 {
      DigitsRoundTrip(-value);
      assert s[1..] == NatToDigits(-value);
    } else {
      DigitsRoundTrip(value);
      assert s[0] != '-';
    }
  }

  /** Distinct integers print differently. */
  lemma IntDisplayInjective(a: int, b: int)
    requires IntToDisplayString(a) == IntToDisplayString(b)
    ensures a == b
  {
    IntDisplayRoundTrip(a);
    IntDisplayRoundTrip(b);
  }

  /** The printed form of an integer holds only digits and `-`. */
  lemma IntDisplayAlphabet(value: int, c: char)
    requires c in IntToDisplayString(value)
    ensures IsDigit(c) || c == '-'
  {
  }
}
