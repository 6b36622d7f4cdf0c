/** `LabelDefinitionsCollector`: walks one module of the bound tree, adds
    every label name to a set, and reports a diagnostic for each label
    statement whose name is already in the set (the set's `Add` fails). */
module LabelDefinitions {
  import opened Scanning
  import opened Diagnostics
  import opened BoundTree

  /** A label statement as the collector sees it: its name and the range of
      its label token. */
  datatype LabelOccurrence = LabelOccurrence(name: string, range: TextRange)

  /** The label statements among the statements, in order. */
  function LabelOccurrences(statements: seq<BoundStatement>): seq<LabelOccurrence>
  {
    if |statements| == 0 then []
    else
      LabelOf(statements[0]) + LabelOccurrences(statements[1..])
  }

  /** The names of the occurrences. */
  function LabelNames(occurrences: seq<LabelOccurrence>): set<string>
  {
    if |occurrences| == 0 then {} else {occurrences[0].name} + LabelNames(occurrences[1..])
  }

  /** The occurrences the collector reports, given the names it has already
      seen: those whose name is in the set when they are visited. */
  function Reported(occurrences: seq<LabelOccurrence>, seen: set<string>): seq<LabelOccurrence>
  {
    if |occurrences| == 0 then []
    else
      (if occurrences[0].name in seen then [occurrences[0]] else [])
      + Reported(occurrences[1..], seen + {occurrences[0].name})
  }

  /** The diagnostic reported for an occurrence. */
  function Diagnose(occurrence: LabelOccurrence): Diagnostic
  {
    Diagnostic(TwoLabelsWithTheSameName, occurrence.range, [occurrence.name])
  }

  /** The diagnostics for the reported occurrences, in the same order. */
  function DiagnoseAll(occurrences: seq<LabelOccurrence>): seq<Diagnostic>
  {
    if |occurrences| == 0 then [] else [Diagnose(occurrences[0])] + DiagnoseAll(occurrences[1..])
  }

  /** The reference definition of a duplicate: the occurrences whose name
      occurs among the occurrences before them. */
  function Repeats(occurrences: seq<LabelOccurrence>): seq<LabelOccurrence>
  {
    if |occurrences| == 0 then []
    else
      var n := |occurrences| - 1;
      Repeats(occurrences[..n])
      + (if occurrences[n].name in LabelNames(occurrences[..n]) then [occurrences[n]] else [])
  }

  /** How many occurrences carry `name`. */
  function CountName(occurrences: seq<LabelOccurrence>, name: string): nat
  {
    if |occurrences| == 0 then 0
    else (if occurrences[0].name == name then 1 else 0) + CountName(occurrences[1..], name)
  }

  /** The occurrence a single statement contributes, if it is a label. */
  function LabelOf(statement: BoundStatement): seq<LabelOccurrence>
  {
    if statement.LabelStatement? then [LabelOccurrence(statement.labelName, statement.labelTokenRange)] else []
  }

  lemma {:induction false} LabelOccurrencesAppend(a: seq<BoundStatement>, b: seq<BoundStatement>)
    ensures LabelOccurrences(a + b) == LabelOccurrences(a) + LabelOccurrences(b)
  {
    if |a| == 0 {
      assert a + b == b;
    } else {
      var ab := a + b;
      assert ab[0] == a[0];
      assert ab[1..] == a[1..] + b;
      assert LabelOccurrences(ab) == LabelOf(a[0]) + LabelOccurrences(a[1..] + b);
      LabelOccurrencesAppend(a[1..], b);
      assert LabelOccurrences(a) == LabelOf(a[0]) + LabelOccurrences(a[1..]);
    }
  }

  lemma {:induction false} LabelNamesAppend(a: seq<LabelOccurrence>, b: seq<LabelOccurrence>)
    ensures LabelNames(a + b) == LabelNames(a) + LabelNames(b)
  {
    if |a| == 0 {
      assert a + b == b;
    } else {
      assert (a + b)[1..] == a[1..] + b;
      LabelNamesAppend(a[1..], b);
    }
  }

  /** Visiting two runs of statements in turn reports the first run's
      duplicates, then the second run's duplicates against everything seen
      so far. */
  lemma {:induction false} ReportedAppend(a: seq<LabelOccurrence>, b: seq<LabelOccurrence>, seen: set<string>)
    ensures Reported(a + b, seen) == Reported(a, seen) + Reported(b, seen + LabelNames(a))
  {
    if |a| == 0 {
      assert a + b == b;
      assert seen + LabelNames(a) == seen;
    } else {
      var head := a[0];
      var first := if head.name in seen then [head] else [];
      var ab := a + b;
      assert ab[0] == head;
      assert ab[1..] == a[1..] + b;
      assert Reported(ab, seen) == first + Reported(a[1..] + b, seen + {head.name});
      ReportedAppend(a[1..], b, seen + {head.name});
      assert seen + {head.name} + LabelNames(a[1..]) == seen + LabelNames(a);
      assert Reported(a, seen) == first + Reported(a[1..], seen + {head.name});
    }
  }

  lemma {:induction false} DiagnoseAllAppend(a: seq<LabelOccurrence>, b: seq<LabelOccurrence>)
    ensures DiagnoseAll(a + b) == DiagnoseAll(a) + DiagnoseAll(b)
  {
    if |a| == 0 {
      assert a + b == b;
    } else {
      assert (a + b)[1..] == a[1..] + b;
      DiagnoseAllAppend(a[1..], b);
    }
  }

  /** The names known after visiting `statements`, having seen `seen`. */
  ghost function NamesAfter(seen: set<string>, statements: seq<BoundStatement>): set<string>
  {
    seen + LabelNames(LabelOccurrences(statements))
  }

  /** The diagnostics visiting `statements` reports, having seen `seen`. */
  ghost function ReportsOf(seen: set<string>, statements: seq<BoundStatement>): seq<Diagnostic>
  {
    DiagnoseAll(Reported(LabelOccurrences(statements), seen))
  }

  /** Visiting `a` and then `b` leaves the same names and the same reports
      as visiting `a + b`. */
  lemma VisitInTurn(seen: set<string>, a: seq<BoundStatement>, b: seq<BoundStatement>)
    ensures NamesAfter(NamesAfter(seen, a), b) == NamesAfter(seen, a + b)
    ensures ReportsOf(seen, a) + ReportsOf(NamesAfter(seen, a), b) == ReportsOf(seen, a + b)
  {
    var x, y := LabelOccurrences(a), LabelOccurrences(b);
    LabelOccurrencesAppend(a, b);
    LabelNamesAppend(x, y);
    ReportedAppend(x, y, seen);
    DiagnoseAllAppend(Reported(x, seen), Reported(y, seen + LabelNames(x)));
  }

  /** A statement other than a label is visited as its nested statements. */
  lemma VisitThrough(seen: set<string>, statement: BoundStatement)
    requires !statement.LabelStatement?
    ensures NamesAfter(seen, FlattenStatement(statement)) == NamesAfter(seen, Nested(statement))
    ensures ReportsOf(seen, FlattenStatement(statement)) == ReportsOf(seen, Nested(statement))
  {
    StatementOccurrences(statement);
    assert LabelOccurrences(FlattenStatement(statement)) == LabelOccurrences(Nested(statement));
  }

  /** The label occurrences a statement's visit meets: its own, then those
      of its bodies in order. */
  lemma StatementOccurrences(statement: BoundStatement)
    ensures LabelOccurrences(FlattenStatement(statement)) == LabelOf(statement) + LabelOccurrences(Nested(statement))
  {
    LabelOccurrencesAppend([statement], Nested(statement));
    assert LabelOccurrences([statement]) == LabelOf(statement) + LabelOccurrences([]);
  }

  /** An occurrence is reported exactly when an equal name was visited
      before it: the collector's fold agrees with the reference definition. */
  lemma {:induction false} ReportedIsRepeats(occurrences: seq<LabelOccurrence>)
    ensures Reported(occurrences, {}) == Repeats(occurrences)
  {
    if |occurrences| > 0 {
      var n := |occurrences| - 1;
      var init, last := occurrences[..n], occurrences[n];
      assert occurrences == init + [last];
      ReportedIsRepeats(init);
      ReportedAppend(init, [last], {});
      assert {} + LabelNames(init) == LabelNames(init);
    }
  }

  /** An occurrence is among the repeats exactly when it stands at some
      position whose name already occurs before that position; in
      particular the first occurrence of a name is never among them. */
  lemma {:induction false} RepeatsMembership(occurrences: seq<LabelOccurrence>, occurrence: LabelOccurrence)
    ensures occurrence in Repeats(occurrences)
        <==> exists i :: 0 <= i < |occurrences| && occurrences[i] == occurrence
                    && occurrence.name in LabelNames(occurrences[..i])
  {
    if |occurrences| > 0 {
      var n := |occurrences| - 1;
      var init := occurrences[..n];
      RepeatsMembership(init, occurrence);
      assert forall i :: 0 <= i < n ==> init[i] == occurrences[i] && init[..i] == occurrences[..i];
      if occurrence in Repeats(occurrences) && occurrence !in Repeats(init) {
        assert occurrences[n] == occurrence && occurrence.name in LabelNames(occurrences[..n]);
      }
    }
  }

  /** A name visited `n > 0` times is reported `n - 1` times, once for every
      occurrence after the first; a name already seen is reported at every
      occurrence. */
  lemma {:induction false} ReportedCount(occurrences: seq<LabelOccurrence>, seen: set<string>, name: string)
    ensures CountName(Reported(occurrences, seen), name)
         == if name in seen then CountName(occurrences, name)
            else if CountName(occurrences, name) == 0 then 0
            else CountName(occurrences, name) - 1
  {
    if |occurrences| > 0 {
      var head := occurrences[0];
      var first := if head.name in seen then [head] else [];
      ReportedCount(occurrences[1..], seen + {head.name}, name);
      CountNameAppend(first, Reported(occurrences[1..], seen + {head.name}), name);
    }
  }

  lemma {:induction false} CountNameAppend(a: seq<LabelOccurrence>, b: seq<LabelOccurrence>, name: string)
    ensures CountName(a + b, name) == CountName(a, name) + CountName(b, name)
  {
    if |a| == 0 {
      assert a + b == b;
    } else {
      assert (a + b)[1..] == a[1..] + b;
      CountNameAppend(a[1..], b, name);
    }
  }

  /** The occurrences a name-free run reports, when no two of them share a
      name and none was seen before, are none. */
  lemma {:induction false} DistinctLabelsReportNothing(occurrences: seq<LabelOccurrence>, seen: set<string>)
    requires forall i, j :: 0 <= i < j < |occurrences| ==> occurrences[i].name != occurrences[j].name
    requires forall i :: 0 <= i < |occurrences| ==> occurrences[i].name !in seen
    ensures Reported(occurrences, seen) == []
  {
    if |occurrences| > 0 {
      DistinctLabelsReportNothing(occurrences[1..], seen + {occurrences[0].name});
    }
  }

  /** Label names are compared ordinally: `Foo` and `foo` are two labels,
      and defining both reports nothing. */
  lemma LabelsAreCaseSensitive(first: TextRange, second: TextRange)
    ensures Reported([LabelOccurrence("Foo", first), LabelOccurrence("foo", second)], {}) == []
  {
    assert "Foo" != "foo" by {
      assert "Foo"[0] != "foo"[0];
    }
    DistinctLabelsReportNothing([LabelOccurrence("Foo", first), LabelOccurrence("foo", second)], {});
  }

  class LabelDefinitionsCollector {
    const diagnostics: DiagnosticBag
    /** The label names defined so far; `Labels` reads this set. */
    var labels: set<string>

    /** Walks the module's `statements` once, starting from an empty set, so
        duplicates are found within this module only. */
    constructor (diagnostics: DiagnosticBag, statements: seq<BoundStatement>)
      modifies diagnostics
      ensures this.diagnostics == diagnostics
      ensures labels == LabelNames(LabelOccurrences(Flatten(statements)))
      ensures diagnostics.contents
           == old(diagnostics.contents) + DiagnoseAll(Reported(LabelOccurrences(Flatten(statements)), {}))
    {
      this.diagnostics := diagnostics;
      labels := {};
      new;
      VisitBlock(statements);
      assert {} + LabelNames(LabelOccurrences(Flatten(statements))) == LabelNames(LabelOccurrences(Flatten(statements)));
    }

    /** The base visitor on a block: each statement in order. */
    method VisitBlock(block: seq<BoundStatement>)
      modifies this`labels, diagnostics
      ensures labels == NamesAfter(old(labels), Flatten(block))
      ensures diagnostics.contents == old(diagnostics.contents) + ReportsOf(old(labels), Flatten(block))
      decreases block
    {
      var i := 0;
      while i < |block|
        invariant 0 <= i <= |block|
        invariant labels == NamesAfter(old(labels), Flatten(block[..i]))
        invariant diagnostics.contents == old(diagnostics.contents) + ReportsOf(old(labels), Flatten(block[..i]))
      {
        VisitStatement(block[i]);
        assert block[..i + 1] == block[..i] + [block[i]];
        FlattenAppend(block[..i], block[i]);
        VisitInTurn(old(labels), Flatten(block[..i]), FlattenStatement(block[i]));
        i := i + 1;
      }
      assert block[..i] == block;
    }

    /** The base visitor on a statement: dispatches on its kind. */
    method VisitStatement(statement: BoundStatement)
      modifies this`labels, diagnostics
      ensures labels == NamesAfter(old(labels), FlattenStatement(statement))
      ensures diagnostics.contents == old(diagnostics.contents) + ReportsOf(old(labels), FlattenStatement(statement))
      decreases statement, 1
    {
      match statement
      case LabelStatement(name, range) =>
        StatementOccurrences(statement);
        ghost var occurrence := LabelOccurrence(name, range);
        assert Nested(statement) == [];
        assert LabelOccurrences(FlattenStatement(statement)) == [occurrence];
        assert LabelNames([occurrence]) == {name} + LabelNames([]);
        assert Reported([occurrence], old(labels))
            == (if name in old(labels) then [occurrence] else []) + Reported([], old(labels) + {name});
        assert DiagnoseAll([occurrence]) == [Diagnose(occurrence)] + DiagnoseAll([]);
        VisitLabelStatement(name, range);
      case IfStatement(_, _, _) =>
        VisitIfStatement(statement);
      case WhileStatement(_, body) =>
        VisitThrough(old(labels), statement);
        VisitBlock(body);
      case ForStatement(_, _, _, body) =>
        VisitThrough(old(labels), statement);
        VisitBlock(body);
      case _ =>
        VisitThrough(old(labels), statement);
        assert Nested(statement) == [];
    }

    /** The base visitor on an `If`: the then-part, then the else-part. */
    method VisitIfStatement(statement: BoundStatement)
      requires statement.IfStatement?
      modifies this`labels, diagnostics
      ensures labels == NamesAfter(old(labels), FlattenStatement(statement))
      ensures diagnostics.contents == old(diagnostics.contents) + ReportsOf(old(labels), FlattenStatement(statement))
      decreases statement, 0
    {
      VisitThrough(old(labels), statement);
      VisitBlock(statement.thenBody);
      VisitBlock(statement.elseBody);
      VisitInTurn(old(labels), Flatten(statement.thenBody), Flatten(statement.elseBody));
    }

    /** The `VisitLabelStatement` override: adds the name; when it was
        already there, reports the label token of this later occurrence. */
    method VisitLabelStatement(name: string, range: TextRange)
      modifies this`labels, diagnostics
      ensures labels == old(labels) + {name}
      ensures diagnostics.contents
           == old(diagnostics.contents) + (if name in old(labels) then [Diagnostic(TwoLabelsWithTheSameName, range, [name])] else [])
    {
      var added := name !in labels;
      labels := labels + {name};
      if !added {
        diagnostics.ReportTwoLabelsWithTheSameName(range, name);
      }
    }
  }
}
