/** The AST record classes of Parser/Classes/ as one closed datatype.

    Each constructor is one class and keeps the fields its constructor
    stores. BinaryOperation's `token` field is the same object as `op`
    (Parser/Classes/BinaryOperation.php:23), so it is not repeated.
    Assignment is a BinaryOperation subclass without fields of its own; it
    is its own constructor with the same three fields. Number, Variable and
    NoOperation are not part of this model's source files; the parser
    builds Number and Variable from a token and reads their `value`, the
    token's text. Type copies its token's value into `value`
    (Parser/Classes/Type.php:16-20); here `Value` reads it from the token. */
module Ast {
  import opened Wrappers
  import opened Tokens

  datatype Node =
    | Program(name: string, block: Node)
    | Block(declarations: seq<Node>, compoundStatement: Node)
    | VariableDeclaration(variable: Node, typeNode: Node)
    | Type(token: Token)
    | Compound(childNode: seq<Node>)
    | BinaryOperation(left: Node, op: Token, right: Node)
    | Assignment(left: Node, op: Token, right: Node)
    | Number(token: Token)
    | Variable(token: Token)
    | NoOperation

  /** The `value` property: the token text of a Type, Number or Variable;
      null for a node that has no such property. */
  function Value(n: Node): Option<string> {
    match n
    case Type(t) => t.value
    case Number(t) => t.value
    case Variable(t) => t.value
    case _ => None
  }

  /** The literal zero the parser puts left of a unary operator. */
  const Zero := Node.Number(Token(IntegerConst, Some("0")))

  /** A variable reference built from an identifier token. */
  predicate IsVariable(n: Node) {
    n.Variable? && n.token.kind == Id
  }

  /** An arithmetic expression: literals, variables and binary operations
      whose operator is an OPERATOR or a DIV token. */
  predicate IsExpression(n: Node) {
    match n
    case Number(t) => t.kind == IntegerConst || t.kind == RealConst
    case Variable(t) => t.kind == Id
    case BinaryOperation(l, op, r) =>
      (op.kind == Operator || op.kind == IntegerDiv) && IsExpression(l) && IsExpression(r)
    case _ => false
  }

  /** A statement: an empty one, an assignment of an expression to a
      variable with a `:=` token, or a compound of at least one statement. */
  predicate IsStatement(n: Node) {
    match n
    case NoOperation => true
    case Assignment(l, op, r) => IsVariable(l) && op.kind == TokenType.Assignment && IsExpression(r)
    case Compound(cs) => 0 < |cs| && forall c <- cs :: IsStatement(c)
    case _ => false
  }

  /** A declaration of one variable with an INTEGER or REAL type node. */
  predicate IsDeclaration(n: Node) {
    && n.VariableDeclaration?
    && IsVariable(n.variable)
    && n.typeNode.Type?
    && (n.typeNode.token.kind == Integer || n.typeNode.token.kind == Real)
  }

  predicate IsBlock(n: Node) {
    && n.Block?
    && (forall d <- n.declarations :: IsDeclaration(d))
    && n.compoundStatement.Compound?
    && IsStatement(n.compoundStatement)
  }

  /** The invariants every tree the parser returns satisfies. */
  predicate IsProgram(n: Node) {
    n.Program? && IsBlock(n.block)
  }
}
