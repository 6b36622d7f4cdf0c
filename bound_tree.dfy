/** The bound tree as the binder's collectors walk it: statements that nest
    through their bodies, visited in source order (an `If` visits its then-part
    before its else-part). `Flatten` lists the statements in that visit order;
    the collectors are specified over that list. */
module BoundTree {
  import opened Scanning

  datatype BoundExpression =
    | LiteralExpression(text: string)
    | VariableExpression(name: string)
    | ArrayAccessExpression(arrayName: string, indices: seq<BoundExpression>)
    | BinaryExpression(left: BoundExpression, right: BoundExpression)
    | LibraryInvocationExpression(library: string, member: string, arguments: seq<BoundExpression>)

  datatype BoundStatement =
    | LabelStatement(labelName: string, labelTokenRange: TextRange)
    | GotoStatement(targetLabel: string)
    | VariableAssignmentStatement(variable: string, value: BoundExpression)
    | ArrayAssignmentStatement(arrayName: string, indices: seq<BoundExpression>, value: BoundExpression)
    | InvokeSubModuleStatement(name: string)
    | ExpressionStatement(expression: BoundExpression)
    | IfStatement(condition: BoundExpression, thenBody: seq<BoundStatement>, elseBody: seq<BoundStatement>)
    | WhileStatement(condition: BoundExpression, body: seq<BoundStatement>)
    | ForStatement(identifier: string, fromValue: BoundExpression, toValue: BoundExpression, body: seq<BoundStatement>)

  /** A sub-module: its name and its body. */
  datatype BoundSubModule = BoundSubModule(name: string, body: seq<BoundStatement>)

  /** The statements of a block in visit order: each statement, then the
      statements nested in it. */
  function Flatten(block: seq<BoundStatement>): seq<BoundStatement>
    decreases block
  {
    if |block| == 0 then [] else FlattenStatement(block[0]) + Flatten(block[1..])
  }

  function FlattenStatement(statement: BoundStatement): seq<BoundStatement>
    decreases statement, 1
  {
    [statement] + Nested(statement)
  }

  /** The statements nested in a statement's bodies, in visit order. */
  function Nested(statement: BoundStatement): seq<BoundStatement>
    decreases statement, 0
  {
    match statement
    case IfStatement(_, thenBody, elseBody) => Flatten(thenBody) + Flatten(elseBody)
    case WhileStatement(_, body) => Flatten(body)
    case ForStatement(_, _, _, body) => Flatten(body)
    case _ => []
  }

  /** Visiting a block statement by statement visits the flattened block. */
  lemma {:induction false} FlattenAppend(block: seq<BoundStatement>, statement: BoundStatement)
    ensures Flatten(block + [statement]) == Flatten(block) + FlattenStatement(statement)
  {
    if |block| == 0 {
      assert (block + [statement])[1..] == [];
    } else {
      assert (block + [statement])[1..] == block[1..] + [statement];
      FlattenAppend(block[1..], statement);
    }
  }
}
