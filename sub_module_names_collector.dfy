/** The parser's `SubModuleNamesCollector`: before binding, walks the syntax
    tree once and collects the name-token text of every sub-module
    declaration, so that calls to sub-modules declared later resolve. It does
    not look inside a sub-module's body. */
module Parsing {
  import opened Scanning

  /** A token: its text and its range. */
  datatype Token = Token(text: string, range: TextRange)

  /** The statement forms of the syntax tree that matter to the collector;
      every other statement is `OtherStatementSyntax`. */
  datatype StatementSyntax =
    | SubModuleStatementSyntax(nameToken: Token, body: seq<StatementSyntax>)
    | IfStatementSyntax(thenBody: seq<StatementSyntax>, elseBody: seq<StatementSyntax>)
    | WhileStatementSyntax(body: seq<StatementSyntax>)
    | ForStatementSyntax(identifier: Token, body: seq<StatementSyntax>)
    | OtherStatementSyntax(range: TextRange)

  /** The sub-module names the visitor meets in a block, in visit order:
      a sub-module statement contributes its name and nothing from its body;
      other statements contribute what their bodies hold. */
  function DeclaredNames(block: seq<StatementSyntax>): seq<string>
    decreases block
  {
    if |block| == 0 then [] else DeclaredNamesOf(block[0]) + DeclaredNames(block[1..])
  }

  function DeclaredNamesOf(statement: StatementSyntax): seq<string>
    decreases statement
  {
    match statement
    case SubModuleStatementSyntax(nameToken, _) => [nameToken.text]
    case IfStatementSyntax(thenBody, elseBody) => DeclaredNames(thenBody) + DeclaredNames(elseBody)
    case WhileStatementSyntax(body) => DeclaredNames(body)
    case ForStatementSyntax(_, body) => DeclaredNames(body)
    case OtherStatementSyntax(_) => []
  }

  /** The set the collector holds: the names it met, duplicates collapsed. */
  function NameSet(names: seq<string>): (result: set<string>)
    ensures forall name :: name in result <==> name in names
  {
    set i | 0 <= i < |names| :: names[i]
  }

  lemma {:induction false} DeclaredNamesAppend(a: seq<StatementSyntax>, statement: StatementSyntax)
    ensures DeclaredNames(a + [statement]) == DeclaredNames(a) + DeclaredNamesOf(statement)
  {
    if |a| == 0 {
      assert (a + [statement])[1..] == [];
    } else {
      assert (a + [statement])[1..] == a[1..] + [statement];
      DeclaredNamesAppend(a[1..], statement);
    }
  }

  /** A top-level sub-module statement contributes exactly its own name,
      whatever its body declares. */
  lemma SubModuleBodiesAreIgnored(nameToken: Token, body: seq<StatementSyntax>, rest: seq<StatementSyntax>)
    ensures NameSet(DeclaredNames([SubModuleStatementSyntax(nameToken, body)] + rest))
         == {nameToken.text} + NameSet(DeclaredNames(rest))
  {
    var block := [SubModuleStatementSyntax(nameToken, body)] + rest;
    assert block[1..] == rest;
    assert DeclaredNames(block) == [nameToken.text] + DeclaredNames(rest);
  }

  /** Declaring the same name twice collects it once. */
  lemma DuplicateDeclarationsCollapse(nameToken: Token, again: Token, body: seq<StatementSyntax>, otherBody: seq<StatementSyntax>)
    requires nameToken.text == again.text
    ensures NameSet(DeclaredNames([SubModuleStatementSyntax(nameToken, body), SubModuleStatementSyntax(again, otherBody)]))
         == {nameToken.text}
  {
    var block := [SubModuleStatementSyntax(nameToken, body), SubModuleStatementSyntax(again, otherBody)];
    assert block[1..] == [SubModuleStatementSyntax(again, otherBody)];
    assert DeclaredNames(block[1..]) == [again.text] + DeclaredNames([]);
    assert DeclaredNames(block) == [nameToken.text, again.text];
  }

  /** Names are compared ordinally: `Foo` and `foo` are two names. */
  lemma NamesAreCaseSensitive(range: TextRange)
    ensures |NameSet(DeclaredNames([SubModuleStatementSyntax(Token("Foo", range), []),
                                    SubModuleStatementSyntax(Token("foo", range), [])]))| == 2
  {
    var first, second := SubModuleStatementSyntax(Token("Foo", range), []), SubModuleStatementSyntax(Token("foo", range), []);
    var block := [first, second];
    assert block[1..] == [second];
    assert DeclaredNames(block[1..]) == ["foo"] + DeclaredNames([]);
    assert DeclaredNames(block) == ["Foo", "foo"];
    assert "Foo" != "foo" by {
      assert "Foo"[0] != "foo"[0];
    }
    assert NameSet(["Foo", "foo"]) == {"Foo", "foo"};
  }

  class SubModuleNamesCollector {
    /** The names collected so far; `Names` reads this set. */
    var names: set<string>

    /** Walks the whole syntax tree once; afterwards `Names` only reads. */
    constructor (syntaxTree: seq<StatementSyntax>)
      ensures names == NameSet(DeclaredNames(syntaxTree))
    {
      names := {};
      new;
      VisitBlock(syntaxTree);
    }

    /** The base visitor on a block: each statement in order. */
    method VisitBlock(block: seq<StatementSyntax>)
      modifies this
      ensures names == old(names) + NameSet(DeclaredNames(block))
      decreases block
    {
      var i := 0;
      while i < |block|
        invariant 0 <= i <= |block|
        invariant names == old(names) + NameSet(DeclaredNames(block[..i]))
      {
        VisitStatement(block[i]);
        assert block[..i + 1] == block[..i] + [block[i]];
        DeclaredNamesAppend(block[..i], block[i]);
        i := i + 1;
      }
      assert block[..i] == block;
    }

    /** The base visitor on a statement, with the sub-module override,
        which adds the name token's text and does not visit the body. */
    method VisitStatement(statement: StatementSyntax)
      modifies this
      ensures names == old(names) + NameSet(DeclaredNamesOf(statement))
      decreases statement
    {
      match statement
      case SubModuleStatementSyntax(nameToken, _) =>
        names := names + {nameToken.text};
      case IfStatementSyntax(thenBody, elseBody) =>
        VisitBlock(thenBody);
        VisitBlock(elseBody);
      case WhileStatementSyntax(body) =>
        VisitBlock(body);
      case ForStatementSyntax(_, body) =>
        VisitBlock(body);
      case OtherStatementSyntax(_) =>
    }
  }
}
