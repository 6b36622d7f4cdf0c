/** `TextRange`: a pair of positions in the source text, with equality, a
    closed-interval containment test, a display string and the conversion to
    the editor's (Monaco's) coordinates.

    `TextPosition` itself is not part of this model beyond what `TextRange`
    uses: a (line, column) pair of 0-based integers, compared in lexicographic
    order and displayed as `(line, column)`. */
module Scanning {
  import opened StringExtensions

  datatype TextPosition = TextPosition(line: int, column: int)

  /** The order `<=` on positions: earlier line first, then earlier column. */
  predicate PositionLessOrEqual(a: TextPosition, b: TextPosition)
  {
    a.line < b.line || (a.line == b.line && a.column <= b.column)
  }

  /** The position order is a total order, so ranges can be reasoned about
      as intervals. */
  lemma PositionOrderIsTotal(a: TextPosition, b: TextPosition, c: TextPosition)
    ensures PositionLessOrEqual(a, a)
    ensures PositionLessOrEqual(a, b) || PositionLessOrEqual(b, a)
    ensures PositionLessOrEqual(a, b) && PositionLessOrEqual(b, a) ==> a == b
    ensures PositionLessOrEqual(a, b) && PositionLessOrEqual(b, c) ==> PositionLessOrEqual(a, c)
  {
  }

  datatype TextRange = TextRange(start: TextPosition, end: TextPosition)

  /** The implicit conversion from a `(Start, End)` tuple. */
  function FromTuple(tuple: (TextPosition, TextPosition)): (r: TextRange)
    ensures r.start == tuple.0 && r.end == tuple.1
  {
    TextRange(tuple.0, tuple.1)
  }

  /** The conversion loses nothing: the tuple comes back from the range. */
  lemma TupleRoundTrip(tuple: (TextPosition, TextPosition))
    ensures (FromTuple(tuple).start, FromTuple(tuple).end) == tuple
  {
  }

  // ---------------------------------------------------------------------
  // Equality and hashing

  /** `operator ==`: both ends equal. */
  predicate Equal(left: TextRange, right: TextRange)
    ensures Equal(left, right) <==> left == right
  {
    left.start == right.start && left.end == right.end
  }

  /** `operator !=`. */
  predicate NotEqual(left: TextRange, right: TextRange)
    ensures NotEqual(left, right) <==> left != right
  {
    !Equal(left, right)
  }

  /** What `Equals(object)` may be handed. */
  datatype BoxedObject = BoxedRange(range: TextRange) | OtherObject | Null

  /** `Equals(object)`: only a boxed `TextRange` equal to this one. */
  predicate EqualsObject(self: TextRange, obj: BoxedObject)
    ensures EqualsObject(self, obj) <==> obj == BoxedRange(self)
  {
    obj.BoxedRange? && Equal(self, obj.range)
  }

  /** `==` is value equality of the two ends, hence an equivalence; `!=` and
      `Equals` agree with it. */
  lemma EqualityIsValueEquality(a: TextRange, b: TextRange, c: TextRange)
    ensures Equal(a, b) <==> a == b
    ensures Equal(a, a)
    ensures Equal(a, b) ==> Equal(b, a)
    ensures Equal(a, b) && Equal(b, c) ==> Equal(a, c)
    ensures NotEqual(a, b) <==> !Equal(a, b)
    ensures EqualsObject(a, BoxedRange(b)) <==> Equal(a, b)
    ensures !EqualsObject(a, OtherObject) && !EqualsObject(a, Null)
  {
  }

  /** `GetHashCode`: the XOR of the two positions' hash codes, whatever hash
      `TextPosition` uses. */
  function HashCode(self: TextRange, positionHash: TextPosition -> bv32): (r: bv32)
    ensures r ^ positionHash(self.end) == positionHash(self.start)
    ensures r ^ positionHash(self.start) == positionHash(self.end)
  {
    positionHash(self.start) ^ positionHash(self.end)
  }

  /** Equal ranges have equal hash codes. */
  lemma HashConsistentWithEquality(a: TextRange, b: TextRange, positionHash: TextPosition -> bv32)
    requires Equal(a, b)
    ensures HashCode(a, positionHash) == HashCode(b, positionHash)
  {
  }

  /** XOR ignores the orientation: a range and its reverse collide, and every
      one-position range (start == end) hashes to zero. */
  lemma HashIgnoresOrientation(p: TextPosition, q: TextPosition, positionHash: TextPosition -> bv32)
    ensures HashCode(TextRange(p, q), positionHash) == HashCode(TextRange(q, p), positionHash)
    ensures HashCode(TextRange(p, p), positionHash) == 0
  {
  }

  // ---------------------------------------------------------------------
  // Containment

  /** `Contains`: `Start <= position <= End`, both ends included. */
  predicate Contains(self: TextRange, position: TextPosition)
    ensures Contains(self, position) ==> PositionLessOrEqual(self.start, self.end)
    ensures Contains(self, position) ==> self.start.line <= position.line <= self.end.line
  {
    PositionLessOrEqual(self.start, position) && PositionLessOrEqual(position, self.end)
  }

  /** A range contains some position exactly when it is well ordered, and
      then it contains both of its ends. */
  lemma ContainsEnds(r: TextRange)
    ensures (exists p :: Contains(r, p)) <==> PositionLessOrEqual(r.start, r.end)
    ensures PositionLessOrEqual(r.start, r.end) ==> Contains(r, r.start) && Contains(r, r.end)
  {
    if PositionLessOrEqual(r.start, r.end) {
      assert Contains(r, r.start);
    }
  }

  /** A range is convex: it contains everything between two positions it
      contains. */
  lemma ContainsIsConvex(r: TextRange, a: TextPosition, b: TextPosition, p: TextPosition)
    requires Contains(r, a) && Contains(r, b)
    requires PositionLessOrEqual(a, p) && PositionLessOrEqual(p, b)
    ensures Contains(r, p)
  {
  }

  // ---------------------------------------------------------------------
  // Display

  /** How a `TextPosition` displays: `(line, column)`. */
  function PositionToDisplayString(p: TextPosition): string
  {
    "(" + IntToDisplayString(p.line) + ", " + IntToDisplayString(p.column) + ")"
  }

  /** `ToDisplayString`: `(start, end)`. */
  function RangeToDisplayString(self: TextRange): (r: string)
    ensures |r| > 0 && r[0] == '(' && r[|r| - 1] == ')'
  {
    "(" + PositionToDisplayString(self.start) + ", " + PositionToDisplayString(self.end) + ")"
  }

  /** A string breaks uniquely at the first occurrence of a character that
      does not occur before it. */
  lemma SplitAtFirst(x: string, y: string, x': string, y': string, c: char)
    requires c !in x && c !in x'
    requires x + [c] + y == x' + [c] + y'
    ensures x == x' && y == y'
  {
    var s := x + [c] + y;
    assert s[|x|] == c && s[|x'|] == c;
    assert forall i :: 0 <= i < |x| ==> s[i] == x[i];
    assert |x| == |x'|;
    assert x == s[..|x|] == x';
    assert y == s[|x| + 1..] == y';
  }

  lemma PositionDisplayInjective(p: TextPosition, q: TextPosition)
    requires PositionToDisplayString(p) == PositionToDisplayString(q)
    ensures p == q
  {
    var lp, cp := IntToDisplayString(p.line), IntToDisplayString(p.column);
    var lq, cq := IntToDisplayString(q.line), IntToDisplayString(q.column);
    forall c | c in lp || c in lq ensures c != ',' {
      if c in lp { IntDisplayAlphabet(p.line, c); } else { IntDisplayAlphabet(q.line, c); }
    }
    assert PositionToDisplayString(p) == ("(" + lp) + [','] + (" " + cp + ")");
    assert PositionToDisplayString(q) == ("(" + lq) + [','] + (" " + cq + ")");
    SplitAtFirst("(" + lp, " " + cp + ")", "(" + lq, " " + cq + ")", ',');
    assert lp == ("(" + lp)[1..];
    assert lq == ("(" + lq)[1..];
    assert cp == (" " + cp + ")")[1..|cp| + 1];
    assert cq == (" " + cq + ")")[1..|cq| + 1];
    IntDisplayInjective(p.line, q.line);
    IntDisplayInjective(p.column, q.column);
  }

  /** The part of a position's display before its closing parenthesis. */
  function PositionDisplayBody(p: TextPosition): string
  {
    "(" + IntToDisplayString(p.line) + ", " + IntToDisplayString(p.column)
  }

  lemma PositionDisplayBodyHasNoParen(p: TextPosition)
    ensures ')' !in PositionDisplayBody(p)
    ensures PositionToDisplayString(p) == PositionDisplayBody(p) + [')']
  {
    var l, c := IntToDisplayString(p.line), IntToDisplayString(p.column);
    forall ch | ch in l || ch in c ensures ch != ')' {
      if ch in l { IntDisplayAlphabet(p.line, ch); } else { IntDisplayAlphabet(p.column, ch); }
    }
  }

  /** The range display, cut at the closing parenthesis of the start. */
  lemma DisplaySplitsAfterStart(r: TextRange)
    ensures RangeToDisplayString(r) == ("(" + PositionDisplayBody(r.start)) + [')'] + (", " + PositionToDisplayString(r.end) + ")")
    ensures ')' !in "(" + PositionDisplayBody(r.start)
  {
    PositionDisplayBodyHasNoParen(r.start);
  }

  /** Distinct ranges display differently, so the display string identifies
      the range. */
  lemma DisplayInjective(a: TextRange, b: TextRange)
    requires RangeToDisplayString(a) == RangeToDisplayString(b)
    ensures a == b
  {
    DisplaySplitsAfterStart(a);
    DisplaySplitsAfterStart(b);
    var ba, bb := PositionDisplayBody(a.start), PositionDisplayBody(b.start);
    var ea, eb := PositionToDisplayString(a.end), PositionToDisplayString(b.end);
    SplitAtFirst("(" + ba, ", " + ea + ")", "(" + bb, ", " + eb + ")", ')');
    assert ba == ("(" + ba)[1..];
    assert bb == ("(" + bb)[1..];
    PositionDisplayBodyHasNoParen(a.start);
    PositionDisplayBodyHasNoParen(b.start);
    PositionDisplayInjective(a.start, b.start);
    assert ea == (", " + ea + ")")[2..|ea| + 2];
    assert eb == (", " + eb + ")")[2..|eb| + 2];
    PositionDisplayInjective(a.end, b.end);
  }

  // ---------------------------------------------------------------------
  // Editor coordinates

  /** Monaco's range: 1-based lines and columns, end column exclusive. */
  datatype MonacoRange = MonacoRange(startLineNumber: int, startColumn: int, endLineNumber: int, endColumn: int)

  /** `ToMonacoRange`: one more on every line and on the start column, two
      more on the inclusive end column. */
  function ToMonacoRange(self: TextRange): (m: MonacoRange)
    ensures m.startLineNumber == self.start.line + 1 && m.startColumn == self.start.column + 1
    ensures m.endLineNumber == self.end.line + 1 && m.endColumn == self.end.column + 2
  {
    MonacoRange(self.start.line + 1, self.start.column + 1, self.end.line + 1, self.end.column + 2)
  }

  /** The inverse of `ToMonacoRange`. */
  function FromMonacoRange(m: MonacoRange): TextRange
  {
    TextRange(TextPosition(m.startLineNumber - 1, m.startColumn - 1), TextPosition(m.endLineNumber - 1, m.endColumn - 2))
  }

  /** The conversion to editor coordinates loses nothing. */
  lemma MonacoRoundTrip(r: TextRange, m: MonacoRange)
    ensures FromMonacoRange(ToMonacoRange(r)) == r
    ensures ToMonacoRange(FromMonacoRange(m)) == m
  {
  }

  /** On one line, the 1-based half-open column interval of the Monaco range
      covers exactly the positions `Contains` accepts. */
  lemma MonacoCoversContainedColumns(r: TextRange, column: int)
    requires r.start.line == r.end.line
    ensures Contains(r, TextPosition(r.start.line, column))
        <==> ToMonacoRange(r).startColumn <= column + 1 < ToMonacoRange(r).endColumn
  {
  }
}
