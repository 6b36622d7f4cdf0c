/** `VariablesAndSubModulesCollector`: walks the main module and then every
    sub-module, and collects the names that are written to (the target of a
    variable or array assignment) together with the sub-modules' names. A name
    that is only read is not collected. */
module VariablesAndSubModules {
  import opened BoundTree

  /** The statement writes to `name`: it is an assignment whose target
      variable or array is `name`. */
  predicate AssignsTo(statement: BoundStatement, name: string)
  {
    || (statement.VariableAssignmentStatement? && statement.variable == name)
    || (statement.ArrayAssignmentStatement? && statement.arrayName == name)
  }

  /** The names a single statement adds when it is visited. */
  function AssignedName(statement: BoundStatement): set<string>
  {
    match statement
    case VariableAssignmentStatement(variable, _) => {variable}
    case ArrayAssignmentStatement(arrayName, _, _) => {arrayName}
    case _ => {}
  }

  /** The names the visited statements add, in any order. */
  function AssignedNames(statements: seq<BoundStatement>): set<string>
  {
    if |statements| == 0 then {} else AssignedName(statements[0]) + AssignedNames(statements[1..])
  }

  /** The names visiting the sub-modules adds: each one's name and the
      names assigned in its body. */
  function SubModuleNames(subModules: seq<BoundSubModule>): set<string>
  {
    if |subModules| == 0 then {}
    else
      var n := |subModules| - 1;
      SubModuleNames(subModules[..n]) + {subModules[n].name} + AssignedNames(Flatten(subModules[n].body))
  }

  /** The names the collector holds once it has been built. */
  function CollectedNames(mainModule: seq<BoundStatement>, subModules: seq<BoundSubModule>): set<string>
  {
    AssignedNames(Flatten(mainModule)) + SubModuleNames(subModules)
  }

  lemma {:induction false} AssignedNamesAppend(a: seq<BoundStatement>, b: seq<BoundStatement>)
    ensures AssignedNames(a + b) == AssignedNames(a) + AssignedNames(b)
  {
    if |a| == 0 {
      assert a + b == b;
    } else {
      var ab := a + b;
      assert ab[0] == a[0];
      assert ab[1..] == a[1..] + b;
      AssignedNamesAppend(a[1..], b);
    }
  }

  /** A name is added by the visited statements exactly when one of them
      assigns to it. */
  lemma {:induction false} AssignedNamesMembership(statements: seq<BoundStatement>, name: string)
    ensures name in AssignedNames(statements) <==> exists i :: 0 <= i < |statements| && AssignsTo(statements[i], name)
  {
    if |statements| > 0 {
      AssignedNamesMembership(statements[1..], name);
      if name in AssignedNames(statements[1..]) {
        var i :| 0 <= i < |statements[1..]| && AssignsTo(statements[1..][i], name);
        assert AssignsTo(statements[i + 1], name);
      }
      if exists i :: 0 <= i < |statements| && AssignsTo(statements[i], name) {
        var i :| 0 <= i < |statements| && AssignsTo(statements[i], name);
        if i > 0 {
          assert AssignsTo(statements[1..][i - 1], name);
        }
      }
    }
  }

  /** A name is added by the sub-modules exactly when it names one of them
      or is assigned somewhere in one of their bodies. */
  lemma {:induction false} SubModuleNamesMembership(subModules: seq<BoundSubModule>, name: string)
    ensures name in SubModuleNames(subModules)
        <==> exists k :: 0 <= k < |subModules|
                    && (subModules[k].name == name || name in AssignedNames(Flatten(subModules[k].body)))
  {
    if |subModules| > 0 {
      var n := |subModules| - 1;
      var init := subModules[..n];
      SubModuleNamesMembership(init, name);
      if name in SubModuleNames(init) {
        var k :| 0 <= k < |init| && (init[k].name == name || name in AssignedNames(Flatten(init[k].body)));
        assert subModules[k] == init[k];
      }
      if exists k :: 0 <= k < |subModules| && (subModules[k].name == name || name in AssignedNames(Flatten(subModules[k].body))) {
        var k :| 0 <= k < |subModules| && (subModules[k].name == name || name in AssignedNames(Flatten(subModules[k].body)));
        if k < n {
          assert init[k] == subModules[k];
        }
      }
    }
  }

  /** A name is added by the sub-modules exactly when it names one of them
      or some visited statement of one of their bodies assigns to it. */
  lemma SubModuleNamesByStatement(subModules: seq<BoundSubModule>, name: string)
    ensures name in SubModuleNames(subModules)
        ==> || (exists k :: 0 <= k < |subModules| && subModules[k].name == name)
            || (exists k, i :: 0 <= k < |subModules| && 0 <= i < |Flatten(subModules[k].body)|
                            && AssignsTo(Flatten(subModules[k].body)[i], name))
    ensures (exists k :: 0 <= k < |subModules| && subModules[k].name == name) ==> name in SubModuleNames(subModules)
    ensures (exists k, i :: 0 <= k < |subModules| && 0 <= i < |Flatten(subModules[k].body)|
                        && AssignsTo(Flatten(subModules[k].body)[i], name))
            ==> name in SubModuleNames(subModules)
  {
    SubModuleNamesMembership(subModules, name);
    if name in SubModuleNames(subModules) {
      var k :| 0 <= k < |subModules| && (subModules[k].name == name || name in AssignedNames(Flatten(subModules[k].body)));
      if subModules[k].name != name {
        AssignedNamesMembership(Flatten(subModules[k].body), name);
        var i :| 0 <= i < |Flatten(subModules[k].body)| && AssignsTo(Flatten(subModules[k].body)[i], name);
        assert exists k', i' :: 0 <= k' < |subModules| && 0 <= i' < |Flatten(subModules[k'].body)|
                             && AssignsTo(Flatten(subModules[k'].body)[i'], name) by {
          assert 0 <= k < |subModules| && 0 <= i < |Flatten(subModules[k].body)|
              && AssignsTo(Flatten(subModules[k].body)[i], name);
        }
      }
    }
    if exists k, i :: 0 <= k < |subModules| && 0 <= i < |Flatten(subModules[k].body)|
                    && AssignsTo(Flatten(subModules[k].body)[i], name) {
      var k, i :| 0 <= k < |subModules| && 0 <= i < |Flatten(subModules[k].body)|
                  && AssignsTo(Flatten(subModules[k].body)[i], name);
      var body := Flatten(subModules[k].body);
      AssignedNamesMembership(body, name);
      assert 0 <= i < |body| && AssignsTo(body[i], name);
      assert name in AssignedNames(body);
      assert 0 <= k < |subModules| && (subModules[k].name == name || name in AssignedNames(Flatten(subModules[k].body)));
    }
  }

  /** What the collector holds: a name is collected exactly when some visited
      statement of the main module or of a sub-module body assigns to it, or
      it names a sub-module. */
  lemma CollectedNamesMembership(mainModule: seq<BoundStatement>, subModules: seq<BoundSubModule>, name: string)
    ensures name in CollectedNames(mainModule, subModules)
        <==> || (exists i :: 0 <= i < |Flatten(mainModule)| && AssignsTo(Flatten(mainModule)[i], name))
             || (exists k :: 0 <= k < |subModules| && subModules[k].name == name)
             || (exists k, i :: 0 <= k < |subModules| && 0 <= i < |Flatten(subModules[k].body)|
                             && AssignsTo(Flatten(subModules[k].body)[i], name))
  {
    var main := Flatten(mainModule);
    AssignedNamesMembership(main, name);
    SubModuleNamesByStatement(subModules, name);
    assert CollectedNames(mainModule, subModules) == AssignedNames(main) + SubModuleNames(subModules);
    if name in AssignedNames(main) {
      var i :| 0 <= i < |main| && AssignsTo(main[i], name);
      assert 0 <= i < |Flatten(mainModule)| && AssignsTo(Flatten(mainModule)[i], name);
    }
    if exists i :: 0 <= i < |Flatten(mainModule)| && AssignsTo(Flatten(mainModule)[i], name) {
      var i :| 0 <= i < |Flatten(mainModule)| && AssignsTo(Flatten(mainModule)[i], name);
      assert 0 <= i < |main| && AssignsTo(main[i], name);
    }
  }

  /** The sub-modules come from a dictionary whose order is not fixed; the
      collected names do not depend on it. */
  lemma SubModuleOrderIsIrrelevant(mainModule: seq<BoundStatement>, a: seq<BoundSubModule>, b: seq<BoundSubModule>)
    requires multiset(a) == multiset(b)
    ensures CollectedNames(mainModule, a) == CollectedNames(mainModule, b)
  {
    forall name | true
      ensures name in SubModuleNames(a) <==> name in SubModuleNames(b)
    {
      SubModuleNamesMembership(a, name);
      SubModuleNamesMembership(b, name);
      if name in SubModuleNames(a) {
        var k :| 0 <= k < |a| && (a[k].name == name || name in AssignedNames(Flatten(a[k].body)));
        assert a[k] in multiset(b);
        var j :| 0 <= j < |b| && b[j] == a[k];
      }
      if name in SubModuleNames(b) {
        var k :| 0 <= k < |b| && (b[k].name == name || name in AssignedNames(Flatten(b[k].body)));
        assert b[k] in multiset(a);
        var j :| 0 <= j < |a| && a[j] == b[k];
      }
    }
  }

  /** A variable that is only read is not collected: in `x = y`, only `x`
      is. Neither is the identifier of a `For` loop that nothing assigns. */
  lemma ReadOnlyNamesAreNotCollected()
    ensures CollectedNames([VariableAssignmentStatement("x", VariableExpression("y"))], []) == {"x"}
    ensures CollectedNames([ForStatement("i", LiteralExpression("1"), LiteralExpression("3"), [])], []) == {}
  {
    var assignment := VariableAssignmentStatement("x", VariableExpression("y"));
    assert Flatten([assignment]) == [assignment] by {
      assert Flatten([assignment]) == FlattenStatement(assignment) + Flatten([]);
    }
    assert AssignedNames([assignment]) == {"x"} + AssignedNames([]);
    var loop := ForStatement("i", LiteralExpression("1"), LiteralExpression("3"), []);
    assert Flatten([loop]) == [loop] by {
      assert Flatten([loop]) == FlattenStatement(loop) + Flatten([]);
    }
    assert AssignedNames([loop]) == AssignedName(loop) + AssignedNames([]);
  }

  class VariablesAndSubModulesCollector {
    /** The names collected so far; `Names` reads this set. */
    var names: set<string>

    /** Visits the main module, then each sub-module in turn. */
    constructor (mainModule: seq<BoundStatement>, subModules: seq<BoundSubModule>)
      ensures names == CollectedNames(mainModule, subModules)
    {
      names := {};
      new;
      VisitBlock(mainModule);
      var i := 0;
      while i < |subModules|
        invariant 0 <= i <= |subModules|
        invariant names == AssignedNames(Flatten(mainModule)) + SubModuleNames(subModules[..i])
      {
        VisitSubModule(subModules[i]);
        assert subModules[..i + 1][..i] == subModules[..i];
        i := i + 1;
      }
      assert subModules[..i] == subModules;
    }

    /** The base visitor on a block: each statement in order. */
    method VisitBlock(block: seq<BoundStatement>)
      modifies this
      ensures names == old(names) + AssignedNames(Flatten(block))
      decreases block
    {
      var i := 0;
      while i < |block|
        invariant 0 <= i <= |block|
        invariant names == old(names) + AssignedNames(Flatten(block[..i]))
      {
        VisitStatement(block[i]);
        assert block[..i + 1] == block[..i] + [block[i]];
        FlattenAppend(block[..i], block[i]);
        AssignedNamesAppend(Flatten(block[..i]), FlattenStatement(block[i]));
        i := i + 1;
      }
      assert block[..i] == block;
    }

    /** The base visitor on a statement, with the two assignment overrides:
        an assignment adds its target's name. */
    method VisitStatement(statement: BoundStatement)
      modifies this
      ensures names == old(names) + AssignedNames(FlattenStatement(statement))
      decreases statement, 1
    {
      AssignedNamesAppend([statement], Nested(statement));
      assert AssignedNames([statement]) == AssignedName(statement) + AssignedNames([]);
      match statement
      case VariableAssignmentStatement(variable, _) =>
        names := names + {variable};
      case ArrayAssignmentStatement(arrayName, _, _) =>
        names := names + {arrayName};
      case IfStatement(_, thenBody, elseBody) =>
        VisitBlock(thenBody);
        VisitBlock(elseBody);
        AssignedNamesAppend(Flatten(thenBody), Flatten(elseBody));
      case WhileStatement(_, body) =>
        VisitBlock(body);
      case ForStatement(_, _, _, body) =>
        VisitBlock(body);
      case _ =>
    }

    /** The `VisitSubModule` override: adds the sub-module's name, then
        visits its body. */
    method VisitSubModule(node: BoundSubModule)
      modifies this
      ensures names == old(names) + {node.name} + AssignedNames(Flatten(node.body))
    {
      names := names + {node.name};
      VisitBlock(node.body);
    }
  }
}
