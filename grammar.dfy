/** What Parser/Parser.php computes, as pure functions of the token list
    and a cursor. The cursor `k` is the index of the current token, so the
    parser object's `position` is `k + 1`. Every function returns the node
    it builds with the cursor after it, or the error the source throws.
    The class in module Parsing runs the same steps on its fields and is
    proved to agree with these functions.

    The token list is always EOF-terminated (`EofTerminated`), as the lexer
    returns it: the cursor never passes the final EOF, so "tokens left" is a
    termination measure and the source's null-token branches never run. */
module Grammar {
  import opened Wrappers
  import opened Tokens
  import opened Ast

  /** The parser's exceptions. The source throws a bare `Exception` for an
      identifier right after a statement list, and "Unexpected end" for
      tokens after the final `.`. */
  datatype ParseError =
    | UnexpectedToken(expected: TokenType, found: TokenType)
    | MissingSeparator
    | UnexpectedEnd(found: TokenType)

  /** `getNextToken`: one token forward, except that at the last token the
      cursor stays put. */
  function Advance(ts: seq<Token>, k: nat): (k': nat)
    requires k < |ts|
    ensures k' < |ts|
    ensures k' == k <==> k == |ts| - 1
  {
    if k + 1 < |ts| then k + 1 else k
  }

  /** `analyze(t)`: fails unless the current token has type `t`, then
      advances. Matching anything but EOF moves exactly one token. */
  function Expect(ts: seq<Token>, k: nat, t: TokenType): (r: Result<nat, ParseError>)
    requires EofTerminated(ts) && k < |ts|
    ensures r.Success? <==> ts[k].kind == t
    ensures r.Failure? ==> r.error == UnexpectedToken(t, ts[k].kind)
    ensures r.Success? && t != Eof ==> r.value == k + 1 < |ts|
  {
    if ts[k].kind != t then Failure(UnexpectedToken(t, ts[k].kind))
    else Success(Advance(ts, k))
  }

  /** The cursor after a successful step is still on the list and not
      behind where the step started. */
  predicate Ahead<T>(ts: seq<Token>, k: nat, r: Result<(T, nat), ParseError>) {
    r.Success? ==> k <= r.value.1 < |ts|
  }

  /** The same, for a step that always consumes at least one token. */
  predicate StrictlyAhead<T>(ts: seq<Token>, k: nat, r: Result<(T, nat), ParseError>) {
    r.Success? ==> k < r.value.1 < |ts|
  }

  // Where the source calls `analyze` on a type it has just tested, the
  // call cannot fail and the functions below write `Advance` directly.

  // ---------------------------------------------------------------------
  // Expressions

  /** Operators `term` folds: `*`, `/` and DIV. */
  predicate IsMulOp(t: Token) {
    (t.kind == Operator && (t.value == Some("*") || t.value == Some("/"))) || t.kind == IntegerDiv
  }

  /** Operators `expression` folds: `+` and `-`. */
  predicate IsAddOp(t: Token) {
    t.kind == Operator && (t.value == Some("+") || t.value == Some("-"))
  }

  /** `variable`: a Variable node for the current token, which must be an ID. */
  function Variable(ts: seq<Token>, k: nat): (r: Result<(Node, nat), ParseError>)
    requires EofTerminated(ts) && k < |ts|
    ensures r.Success? <==> ts[k].kind == Id
    ensures r.Success? ==> r.value == (Node.Variable(ts[k]), k + 1) && IsVariable(r.value.0)
  {
    var k1 :- Expect(ts, k, Id);
    Success((Node.Variable(ts[k]), k1))
  }

  /** `factor`: a literal, a parenthesised expression, a unary operator
      applied to a factor (any OPERATOR token, read as `0 op factor`), or
      else a variable. */
  function Factor(ts: seq<Token>, k: nat): (r: Result<(Node, nat), ParseError>)
    requires EofTerminated(ts) && k < |ts|
    ensures StrictlyAhead(ts, k, r)
    ensures r.Success? ==> IsExpression(r.value.0)
    decreases |ts| - k, 0
  {
    var t := ts[k];
    match t.kind
    case IntegerConst =>
      var k1 := Advance(ts, k);
      Success((Node.Number(t), k1))
    case RealConst =>
      var k1 := Advance(ts, k);
      Success((Node.Number(t), k1))
    case OpenParen =>
      var k1 := Advance(ts, k);
      var e :- Expression(ts, k1);
      var k2 :- Expect(ts, e.1, CloseParen);
      Success((e.0, k2))
    case Operator =>
      var k1 := Advance(ts, k);
      var f :- Factor(ts, k1);
      Success((BinaryOperation(Zero, t, f.0), f.1))
    case _ =>
      Variable(ts, k)
  }

  /** The loop of `term` from cursor `k`, with `acc` the tree so far: each
      `*`, `/` or DIV makes the tree the left operand of a new node. */
  function TermTail(ts: seq<Token>, k: nat, acc: Node): (r: Result<(Node, nat), ParseError>)
    requires EofTerminated(ts) && k < |ts|
    requires IsExpression(acc)
    ensures Ahead(ts, k, r)
    ensures r.Success? ==> IsExpression(r.value.0)
    decreases |ts| - k, 1
  {
    var t := ts[k];
    if IsMulOp(t) then
      var k1 := Advance(ts, k);
      var f :- Factor(ts, k1);
      TermTail(ts, f.1, BinaryOperation(acc, t, f.0))
    else Success((acc, k))
  }

  /** One round of the `term` loop, in terms of the factor it reads. */
  lemma TermTailUnfold(ts: seq<Token>, k: nat, acc: Node)
    requires EofTerminated(ts) && k < |ts| && IsExpression(acc) && IsMulOp(ts[k])
    ensures TermTail(ts, k, acc) == match Factor(ts, k + 1)
      case Success(f) => TermTail(ts, f.1, BinaryOperation(acc, ts[k], f.0))
      case Failure(e) => Failure(e)
  {
  }

  /** `term`: factors joined by `*`, `/` and DIV, folded to the left. */
  function Term(ts: seq<Token>, k: nat): (r: Result<(Node, nat), ParseError>)
    requires EofTerminated(ts) && k < |ts|
    ensures StrictlyAhead(ts, k, r)
    ensures r.Success? ==> IsExpression(r.value.0)
    decreases |ts| - k, 2
  {
    var f :- Factor(ts, k);
    TermTail(ts, f.1, f.0)
  }

  /** The loop of `expression` from cursor `k`: each `+` or `-` makes the
      tree so far the left operand of a new node. */
  function ExpressionTail(ts: seq<Token>, k: nat, acc: Node): (r: Result<(Node, nat), ParseError>)
    requires EofTerminated(ts) && k < |ts|
    requires IsExpression(acc)
    ensures Ahead(ts, k, r)
    ensures r.Success? ==> IsExpression(r.value.0)
    decreases |ts| - k, 3
  {
    var t := ts[k];
    if IsAddOp(t) then
      var k1 := Advance(ts, k);
      var e :- Term(ts, k1);
      ExpressionTail(ts, e.1, BinaryOperation(acc, t, e.0))
    else Success((acc, k))
  }

  /** One round of the `expression` loop, in terms of the term it reads. */
  lemma ExpressionTailUnfold(ts: seq<Token>, k: nat, acc: Node)
    requires EofTerminated(ts) && k < |ts| && IsExpression(acc) && IsAddOp(ts[k])
    ensures ExpressionTail(ts, k, acc) == match Term(ts, k + 1)
      case Success(t) => ExpressionTail(ts, t.1, BinaryOperation(acc, ts[k], t.0))
      case Failure(e) => Failure(e)
  {
  }

  /** `expression`: terms joined by `+` and `-`, folded to the left. */
  function Expression(ts: seq<Token>, k: nat): (r: Result<(Node, nat), ParseError>)
    requires EofTerminated(ts) && k < |ts|
    ensures StrictlyAhead(ts, k, r)
    ensures r.Success? ==> IsExpression(r.value.0)
    decreases |ts| - k, 4
  {
    var e :- Term(ts, k);
    ExpressionTail(ts, e.1, e.0)
  }

  // ---------------------------------------------------------------------
  // Statements

  /** `assignmentStatement`: a variable, `:=`, an expression. The node keeps
      the `:=` token as its operator. */
  function AssignmentStatement(ts: seq<Token>, k: nat): (r: Result<(Node, nat), ParseError>)
    requires EofTerminated(ts) && k < |ts|
    ensures StrictlyAhead(ts, k, r)
    ensures r.Success? ==> IsStatement(r.value.0) && r.value.0.Assignment?
  {
    var v :- Variable(ts, k);
    var k1 :- Expect(ts, v.1, TokenType.Assignment);
    var e :- Expression(ts, k1);
    Success((Node.Assignment(v.0, ts[v.1], e.0), e.1))
  }

  /** `compoundStatement`: BEGIN, a statement list, END. */
  function CompoundStatement(ts: seq<Token>, k: nat): (r: Result<(Node, nat), ParseError>)
    requires EofTerminated(ts) && k < |ts|
    ensures StrictlyAhead(ts, k, r)
    ensures r.Success? ==> IsStatement(r.value.0) && r.value.0.Compound?
    decreases |ts| - k, 0
  {
    var k1 :- Expect(ts, k, Begin);
    var l :- StatementList(ts, k1);
    var k2 :- Expect(ts, l.1, End);
    Success((Compound(l.0), k2))
  }

  /** `statement`: a compound statement after BEGIN, an assignment after an
      ID, and otherwise the empty statement, which consumes nothing. */
  function Statement(ts: seq<Token>, k: nat): (r: Result<(Node, nat), ParseError>)
    requires EofTerminated(ts) && k < |ts|
    ensures Ahead(ts, k, r)
    ensures r.Success? ==> IsStatement(r.value.0)
    decreases |ts| - k, 1
  {
    if ts[k].kind == Begin then CompoundStatement(ts, k)
    else if ts[k].kind == Id then AssignmentStatement(ts, k)
    else Success((NoOperation, k))
  }

  /** The loop of `statementList` from cursor `k`, with `acc` the statements
      so far: a `;` and a statement, as long as `;` follows. An identifier
      where the loop stops means a missing `;`. */
  function StatementListTail(ts: seq<Token>, k: nat, acc: seq<Node>): (r: Result<(seq<Node>, nat), ParseError>)
    requires EofTerminated(ts) && k < |ts|
    requires forall s <- acc :: IsStatement(s)
    ensures Ahead(ts, k, r)
    ensures r.Success? ==> |acc| <= |r.value.0| && r.value.0[..|acc|] == acc
    ensures r.Success? ==> forall s <- r.value.0 :: IsStatement(s)
    decreases |ts| - k, 2
  {
    if ts[k].kind == EndStatement then
      var k1 := Advance(ts, k);
      var s :- Statement(ts, k1);
      StatementListTail(ts, s.1, acc + [s.0])
    else if ts[k].kind == Id then Failure(MissingSeparator)
    else Success((acc, k))
  }

  /** `statementList`: one or more statements separated by `;`. */
  function StatementList(ts: seq<Token>, k: nat): (r: Result<(seq<Node>, nat), ParseError>)
    requires EofTerminated(ts) && k < |ts|
    ensures Ahead(ts, k, r)
    ensures r.Success? ==> 0 < |r.value.0| && forall s <- r.value.0 :: IsStatement(s)
    decreases |ts| - k, 3
  {
    var s :- Statement(ts, k);
    StatementListTail(ts, s.1, [s.0])
  }

  // ---------------------------------------------------------------------
  // Declarations

  /** `typeSpecification`: INTEGER or REAL, kept as a Type node. Any other
      token fails as a missing REAL. */
  function TypeSpecification(ts: seq<Token>, k: nat): (r: Result<(Node, nat), ParseError>)
    requires EofTerminated(ts) && k < |ts|
    ensures r.Success? <==> ts[k].kind in {Integer, Real}
    ensures r.Failure? ==> r.error == UnexpectedToken(Real, ts[k].kind)
    ensures r.Success? ==> r.value == (Type(ts[k]), k + 1)
  {
    var t := ts[k];
    var k1 :- if t.kind == Integer then Expect(ts, k, Integer) else Expect(ts, k, Real);
    Success((Type(t), k1))
  }

  /** The loop of `variableDeclarations`: `, ID` as long as a comma follows,
      collecting a Variable node per identifier. */
  function IdentifierList(ts: seq<Token>, k: nat, acc: seq<Node>): (r: Result<(seq<Node>, nat), ParseError>)
    requires EofTerminated(ts) && k < |ts|
    requires forall v <- acc :: IsVariable(v)
    ensures Ahead(ts, k, r)
    ensures r.Success? ==> |acc| <= |r.value.0| && r.value.0[..|acc|] == acc
    ensures r.Success? ==> forall v <- r.value.0 :: IsVariable(v)
    decreases |ts| - k
  {
    if ts[k].kind == Comma then
      var k1 := Advance(ts, k);
      var v :- Variable(ts, k1);
      IdentifierList(ts, v.1, acc + [v.0])
    else Success((acc, k))
  }

  /** One VariableDeclaration per variable, all with the type node `t`. */
  function Declare(vs: seq<Node>, t: Node): seq<Node>
  {
    seq(|vs|, i requires 0 <= i < |vs| => VariableDeclaration(vs[i], t))
  }

  /** The end of `variableDeclarations`, once the variables `vs` are read:
      `:` and a type, then one declaration per variable. */
  function TypedDeclarations(ts: seq<Token>, k: nat, vs: seq<Node>): (r: Result<(seq<Node>, nat), ParseError>)
    requires EofTerminated(ts) && k < |ts|
    ensures StrictlyAhead(ts, k, r)
    ensures r.Success? ==> |r.value.0| == |vs|
    ensures r.Success? ==> forall i | 0 <= i < |vs| ::
              r.value.0[i].VariableDeclaration? && r.value.0[i].variable == vs[i]
  {
    var k1 :- Expect(ts, k, Colon);
    var t :- TypeSpecification(ts, k1);
    Success((Declare(vs, t.0), t.1))
  }

  /** `variableDeclarations`: `ID (, ID)* : type`, one declaration per
      identifier, in order, all sharing the one Type node. */
  function VariableDeclarations(ts: seq<Token>, k: nat): (r: Result<(seq<Node>, nat), ParseError>)
    requires EofTerminated(ts) && k < |ts|
    ensures StrictlyAhead(ts, k, r)
    ensures r.Success? ==> 0 < |r.value.0| && forall d <- r.value.0 :: IsDeclaration(d)
  {
    var v :- Variable(ts, k);
    var vs :- IdentifierList(ts, v.1, [v.0]);
    TypedDeclarations(ts, vs.1, vs.0)
  }

  /** The loop of `declarations`: as long as an ID follows, a declaration
      list and a `;`, appended in order. */
  function DeclarationGroups(ts: seq<Token>, k: nat, acc: seq<Node>): (r: Result<(seq<Node>, nat), ParseError>)
    requires EofTerminated(ts) && k < |ts|
    requires forall d <- acc :: IsDeclaration(d)
    ensures Ahead(ts, k, r)
    ensures r.Success? ==> |acc| <= |r.value.0| && r.value.0[..|acc|] == acc
    ensures r.Success? ==> forall d <- r.value.0 :: IsDeclaration(d)
    decreases |ts| - k
  {
    if ts[k].kind == Id then
      var g :- VariableDeclarations(ts, k);
      var k1 :- Expect(ts, g.1, EndStatement);
      DeclarationGroups(ts, k1, acc + g.0)
    else Success((acc, k))
  }

  /** `declarations`: nothing without VAR; after VAR, the declaration
      groups. */
  function Declarations(ts: seq<Token>, k: nat): (r: Result<(seq<Node>, nat), ParseError>)
    requires EofTerminated(ts) && k < |ts|
    ensures Ahead(ts, k, r)
    ensures r.Success? ==> forall d <- r.value.0 :: IsDeclaration(d)
    ensures ts[k].kind != Var ==> r == Success(([], k))
  {
    if ts[k].kind == Var then
      var k1 := Advance(ts, k);
      DeclarationGroups(ts, k1, [])
    else Success(([], k))
  }

  /** `block`: declarations, then a compound statement. */
  function Block(ts: seq<Token>, k: nat): (r: Result<(Node, nat), ParseError>)
    requires EofTerminated(ts) && k < |ts|
    ensures StrictlyAhead(ts, k, r)
    ensures r.Success? ==> IsBlock(r.value.0)
  {
    var d :- Declarations(ts, k);
    var c :- CompoundStatement(ts, d.1);
    Success((Node.Block(d.0, c.0), c.1))
  }

  /** `block` succeeds when its two parts do, one after the other. */
  lemma BlockStep(ts: seq<Token>, k: nat, ds: seq<Node>, m: nat, c: Node, j: nat)
    requires EofTerminated(ts) && k <= m < |ts|
    requires Declarations(ts, k) == Success((ds, m))
    requires CompoundStatement(ts, m) == Success((c, j))
    ensures Block(ts, k) == Success((Node.Block(ds, c), j))
  {
  }

  /** The head of `program`: PROGRAM, a variable and `;`; the name is the
      text of the variable's token. */
  function ProgramHeading(ts: seq<Token>, k: nat): (r: Result<(string, nat), ParseError>)
    requires EofTerminated(ts) && k < |ts|
    ensures r.Success? <==>
              && ts[k].kind == TokenType.Program
              && ts[k + 1].kind == Id && ts[k + 2].kind == EndStatement
    ensures r.Success? ==> r.value == (ValueText(ts[k + 1].value), k + 3)
  {
    var k1 :- Expect(ts, k, TokenType.Program);
    var v :- Variable(ts, k1);
    var k2 :- Expect(ts, v.1, EndStatement);
    Success((ValueText(Value(v.0)), k2))
  }

  /** `program`: the heading, a block and `.`. */
  function Program(ts: seq<Token>, k: nat): (r: Result<(Node, nat), ParseError>)
    requires EofTerminated(ts) && k < |ts|
    ensures StrictlyAhead(ts, k, r)
    ensures r.Success? ==> IsProgram(r.value.0)
  {
    var h :- ProgramHeading(ts, k);
    var b :- Block(ts, h.1);
    var k3 :- Expect(ts, b.1, Dot);
    Success((Node.Program(h.0, b.0), k3))
  }

  /** `parse` from cursor `k`: a program, which must be followed by EOF.
      A fresh parser starts at `k == 0`. */
  function Parse(ts: seq<Token>, k: nat): (r: Result<Node, ParseError>)
    requires EofTerminated(ts) && k < |ts|
    ensures r.Success? ==> IsProgram(r.value)
  {
    var p :- Program(ts, k);
    if ts[p.1].kind != Eof then Failure(UnexpectedEnd(ts[p.1].kind)) else Success(p.0)
  }
}
