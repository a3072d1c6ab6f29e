/** Properties of the parser specification in module Grammar: how `analyze`
    moves, how expressions associate and which operators bind tighter (by
    printing a tree back as tokens and parsing it again), the unary-operator
    rewrite, declaration lists, statement lists and the end of a program. */
module GrammarFacts {
  import opened Wrappers
  import opened Text
  import opened Tokens
  import opened Ast
  import opened Grammar

  const OpenParenToken := Token(OpenParen, Some("("))
  const CloseParenToken := Token(CloseParen, Some(")"))

  // ---------------------------------------------------------------------
  // Expressions printed back as tokens

  /** Every operator in `e` is one the parser folds: `+`, `-`, `*`, `/`
      or DIV. */
  predicate FoldedOperators(e: Node) {
    match e
    case BinaryOperation(l, op, r) =>
      (IsAddOp(op) || IsMulOp(op)) && FoldedOperators(l) && FoldedOperators(r)
    case _ => true
  }

  /** An expression tree built from those operators. */
  predicate WellFormed(e: Node) {
    IsExpression(e) && FoldedOperators(e)
  }

  predicate IsAddNode(e: Node) {
    e.BinaryOperation? && IsAddOp(e.op)
  }

  predicate IsMulNode(e: Node) {
    e.BinaryOperation? && IsMulOp(e.op)
  }

  /** The tokens of `e` where an expression is expected: the sum's left
      operand is itself an expression, its right operand a term. */
  function ExpressionTokens(e: Node): seq<Token>
    requires WellFormed(e)
    decreases e, 2
  {
    if IsAddNode(e) then ExpressionTokens(e.left) + [e.op] + TermTokens(e.right)
    else TermTokens(e)
  }

  /** The tokens of `e` where a term is expected. */
  function TermTokens(e: Node): seq<Token>
    requires WellFormed(e)
    decreases e, if IsAddNode(e) then 4 else 1
  {
    if IsMulNode(e) then TermTokens(e.left) + [e.op] + FactorTokens(e.right)
    else FactorTokens(e)
  }

  /** The tokens of `e` where a factor is expected: an operation is put in
      parentheses. */
  function FactorTokens(e: Node): seq<Token>
    requires WellFormed(e)
    decreases e, if e.BinaryOperation? then 3 else 0
  {
    match e
    case Number(t) => [t]
    case Variable(t) => [t]
    case BinaryOperation(_, _, _) => [OpenParenToken] + ExpressionTokens(e) + [CloseParenToken]
  }

  /** Ranks that order the mutually recursive round-trip lemmas below on
      the same tree. */
  function FactorRank(e: Node): nat {
    if e.BinaryOperation? then 5 else 0
  }

  function TermRank(e: Node): nat {
    if IsAddNode(e) then 6 else 2
  }

  lemma At3(ts: seq<Token>, k: nat, a: seq<Token>, t: Token, b: seq<Token>)
    requires At(ts, k, a + [t] + b)
    ensures At(ts, k, a) && ts[k + |a|] == t && At(ts, k + |a| + 1, b)
  {
    AtSplit(ts, k, a + [t], b);
    AtSplit(ts, k, a, [t]);
    AtIndex(ts, k + |a|, [t], 0);
  }

  /** A factor's tokens, ending at `j`, parse back as that factor. */
  lemma {:induction false} FactorRoundTrip(e: Node, ts: seq<Token>, k: nat, j: nat)
    requires WellFormed(e) && EofTerminated(ts)
    requires At(ts, k, FactorTokens(e)) && j == k + |FactorTokens(e)| && j < |ts|
    ensures Factor(ts, k) == Success((e, j))
    decreases e, FactorRank(e)
  {
    if e.BinaryOperation? {
      ParenParts(e, ts, k, j);
      ExpressionSpine(e, ts, k + 1, j - 1);
      ParenStep(ts, k, e, j - 1);
    } else {
      AtIndex(ts, k, FactorTokens(e), 0);
    }
  }

  /** Where the parts of a parenthesised factor's tokens are. */
  lemma ParenParts(e: Node, ts: seq<Token>, k: nat, j: nat)
    requires WellFormed(e) && e.BinaryOperation?
    requires At(ts, k, FactorTokens(e)) && j == k + |FactorTokens(e)|
    ensures ts[k] == OpenParenToken && ts[j - 1] == CloseParenToken
    ensures At(ts, k + 1, ExpressionTokens(e)) && j - 1 == k + 1 + |ExpressionTokens(e)|
  {
    var inner := ExpressionTokens(e);
    assert FactorTokens(e) == [OpenParenToken] + (inner + [CloseParenToken]);
    AtIndex(ts, k, FactorTokens(e), 0);
    AtSplit(ts, k, [OpenParenToken], inner + [CloseParenToken]);
    AtSplit(ts, k + 1, inner, [CloseParenToken]);
    AtIndex(ts, j - 1, [CloseParenToken], 0);
  }

  /** `(`, an expression ending at `j` and `)` make a factor. */
  lemma ParenStep(ts: seq<Token>, k: nat, e: Node, j: nat)
    requires EofTerminated(ts) && k < j && j + 1 < |ts|
    requires ts[k].kind == OpenParen && ts[j] == CloseParenToken && IsExpression(e)
    requires Expression(ts, k + 1) == ExpressionTail(ts, j, e)
    ensures Factor(ts, k) == Success((e, j + 1))
  {
    assert Advance(ts, k) == k + 1;
    assert Expression(ts, k + 1) == Success((e, j));
    assert Expect(ts, j, CloseParen) == Success(j + 1);
  }

  /** The tokens of a term, ending at `j` and parsed as a term, leave the
      term loop holding the whole tree at `j`. */
  lemma {:induction false} TermSpine(e: Node, ts: seq<Token>, k: nat, j: nat)
    requires WellFormed(e) && EofTerminated(ts)
    requires At(ts, k, TermTokens(e)) && j == k + |TermTokens(e)| && j < |ts|
    ensures Term(ts, k) == TermTail(ts, j, e)
    decreases e, TermRank(e)
  {
    if IsMulNode(e) {
      ProductSpine(e, ts, k, j);
    } else {
      assert TermTokens(e) == FactorTokens(e);
      FactorRoundTrip(e, ts, k, j);
      TermStart(ts, k, e, j);
    }
  }

  /** `TermSpine` for a product: the left operand's term, the operator and
      the right operand's factor. */
  lemma {:induction false} ProductSpine(e: Node, ts: seq<Token>, k: nat, j: nat)
    requires WellFormed(e) && IsMulNode(e) && EofTerminated(ts)
    requires At(ts, k, TermTokens(e)) && j == k + |TermTokens(e)| && j < |ts|
    ensures Term(ts, k) == TermTail(ts, j, e)
    decreases e, 1
  {
    var i := TermParts(e, ts, k, j);
    TermSpine(e.left, ts, k, i);
    ProductStep(e, ts, k, i, j);
  }

  /** The end of `ProductSpine`: the right operand's factor after the
      operator at `i`. */
  lemma {:induction false} ProductStep(e: Node, ts: seq<Token>, k: nat, i: nat, j: nat)
    requires WellFormed(e) && IsMulNode(e) && EofTerminated(ts) && k < |ts|
    requires At(ts, i + 1, FactorTokens(e.right)) && j == i + 1 + |FactorTokens(e.right)| && j < |ts|
    requires ts[i] == e.op && Term(ts, k) == TermTail(ts, i, e.left)
    ensures Term(ts, k) == TermTail(ts, j, e)
    decreases e, 0
  {
    FactorRoundTrip(e.right, ts, i + 1, j);
    TermTailStep(ts, k, e, i, j);
  }

  /** Where the parts of a product's tokens are: the operator is at `i`. */
  lemma TermParts(e: Node, ts: seq<Token>, k: nat, j: nat) returns (i: nat)
    requires WellFormed(e) && IsMulNode(e)
    requires At(ts, k, TermTokens(e)) && j == k + |TermTokens(e)|
    ensures WellFormed(e.left) && WellFormed(e.right) && IsMulOp(e.op)
    ensures At(ts, k, TermTokens(e.left)) && i == k + |TermTokens(e.left)|
    ensures ts[i] == e.op
    ensures At(ts, i + 1, FactorTokens(e.right)) && j == i + 1 + |FactorTokens(e.right)|
  {
    i := k + |TermTokens(e.left)|;
    At3(ts, k, TermTokens(e.left), e.op, FactorTokens(e.right));
  }

  /** A term starts with a factor, then the term loop. */
  lemma TermStart(ts: seq<Token>, k: nat, e: Node, j: nat)
    requires EofTerminated(ts) && k < |ts|
    requires Factor(ts, k) == Success((e, j))
    ensures Term(ts, k) == TermTail(ts, j, e)
  {
  }

  /** One round of the term loop: the operator of the product `e` at `i`
      and its right operand, ending at `j`. */
  lemma TermTailStep(ts: seq<Token>, k: nat, e: Node, i: nat, j: nat)
    requires EofTerminated(ts) && k < |ts| && i + 1 < |ts| && j < |ts|
    requires IsExpression(e) && IsMulNode(e) && ts[i] == e.op
    requires Term(ts, k) == TermTail(ts, i, e.left)
    requires Factor(ts, i + 1) == Success((e.right, j))
    ensures Term(ts, k) == TermTail(ts, j, e)
  {
    assert TermTail(ts, i, e.left) == TermTail(ts, j, BinaryOperation(e.left, ts[i], e.right));
  }

  /** The same for expressions; the token after them must not continue a
      term. */
  lemma {:induction false} ExpressionSpine(e: Node, ts: seq<Token>, k: nat, j: nat)
    requires WellFormed(e) && EofTerminated(ts)
    requires At(ts, k, ExpressionTokens(e)) && j == k + |ExpressionTokens(e)| && j < |ts|
    requires !IsMulOp(ts[j])
    ensures Expression(ts, k) == ExpressionTail(ts, j, e)
    decreases e, 4
  {
    if IsAddNode(e) {
      SumSpine(e, ts, k, j);
    } else {
      assert ExpressionTokens(e) == TermTokens(e);
      TermSpine(e, ts, k, j);
      ExpressionStart(ts, k, e, j);
    }
  }

  /** `ExpressionSpine` for a sum: the left operand's expression, the
      operator and the right operand's term. */
  lemma {:induction false} SumSpine(e: Node, ts: seq<Token>, k: nat, j: nat)
    requires WellFormed(e) && IsAddNode(e) && EofTerminated(ts)
    requires At(ts, k, ExpressionTokens(e)) && j == k + |ExpressionTokens(e)| && j < |ts|
    requires !IsMulOp(ts[j])
    ensures Expression(ts, k) == ExpressionTail(ts, j, e)
    decreases e, 3
  {
    var i := ExpressionParts(e, ts, k, j);
    ExpressionSpine(e.left, ts, k, i);
    SumStep(e, ts, k, i, j);
  }

  /** The end of `SumSpine`: the right operand's term after the operator
      at `i`. */
  lemma {:induction false} SumStep(e: Node, ts: seq<Token>, k: nat, i: nat, j: nat)
    requires WellFormed(e) && IsAddNode(e) && EofTerminated(ts) && k < |ts|
    requires At(ts, i + 1, TermTokens(e.right)) && j == i + 1 + |TermTokens(e.right)| && j < |ts|
    requires ts[i] == e.op && Expression(ts, k) == ExpressionTail(ts, i, e.left)
    requires !IsMulOp(ts[j])
    ensures Expression(ts, k) == ExpressionTail(ts, j, e)
    decreases e, 2
  {
    TermSpine(e.right, ts, i + 1, j);
    ExpressionTailStep(ts, k, e, i, j);
  }

  /** Where the parts of a sum's tokens are: the operator is at `i`. */
  lemma ExpressionParts(e: Node, ts: seq<Token>, k: nat, j: nat) returns (i: nat)
    requires WellFormed(e) && IsAddNode(e)
    requires At(ts, k, ExpressionTokens(e)) && j == k + |ExpressionTokens(e)|
    ensures WellFormed(e.left) && WellFormed(e.right) && IsAddOp(e.op)
    ensures At(ts, k, ExpressionTokens(e.left)) && i == k + |ExpressionTokens(e.left)|
    ensures ts[i] == e.op
    ensures At(ts, i + 1, TermTokens(e.right)) && j == i + 1 + |TermTokens(e.right)|
  {
    i := k + |ExpressionTokens(e.left)|;
    At3(ts, k, ExpressionTokens(e.left), e.op, TermTokens(e.right));
  }

  /** A term that is a whole expression so far: the expression loop starts
      after it. */
  lemma ExpressionStart(ts: seq<Token>, k: nat, e: Node, j: nat)
    requires EofTerminated(ts) && k < |ts| && j < |ts| && IsExpression(e) && !IsMulOp(ts[j])
    requires Term(ts, k) == TermTail(ts, j, e)
    ensures Expression(ts, k) == ExpressionTail(ts, j, e)
  {
    assert TermTail(ts, j, e) == Success((e, j));
  }

  /** One round of the expression loop: the operator of the sum `e` at `i`
      and the whole term after it, ending at `j`. */
  lemma ExpressionTailStep(ts: seq<Token>, k: nat, e: Node, i: nat, j: nat)
    requires EofTerminated(ts) && k < |ts| && i + 1 < |ts| && j < |ts|
    requires IsExpression(e) && IsAddNode(e) && ts[i] == e.op && !IsMulOp(ts[j])
    requires Expression(ts, k) == ExpressionTail(ts, i, e.left)
    requires Term(ts, i + 1) == TermTail(ts, j, e.right)
    ensures Expression(ts, k) == ExpressionTail(ts, j, e)
  {
    assert TermTail(ts, j, e.right) == Success((e.right, j));
    assert ExpressionTail(ts, i, e.left) == ExpressionTail(ts, j, BinaryOperation(e.left, ts[i], e.right));
  }

  /** Printing a well-formed expression with the fewest parentheses and
      parsing it gives the same tree back, whatever follows that cannot
      continue the expression. So the parser's trees are exactly the
      left-associative, precedence-respecting readings of their tokens. */
  lemma ExpressionRoundTrip(e: Node, ts: seq<Token>, k: nat)
    requires WellFormed(e) && EofTerminated(ts)
    requires At(ts, k, ExpressionTokens(e)) && k + |ExpressionTokens(e)| < |ts|
    requires !IsMulOp(ts[k + |ExpressionTokens(e)|]) && !IsAddOp(ts[k + |ExpressionTokens(e)|])
    ensures Expression(ts, k) == Success((e, k + |ExpressionTokens(e)|))
  {
    ExpressionSpine(e, ts, k, k + |ExpressionTokens(e)|);
  }

  // ---------------------------------------------------------------------
  // Precedence, associativity and the unary rewrite on concrete tokens

  const Plus := Token(Operator, Some("+"))
  const Minus := Token(Operator, Some("-"))
  const Times := Token(Operator, Some("*"))

  function IntegerToken(digits: string): Token {
    Token(IntegerConst, Some(digits))
  }

  function IdToken(name: string): Token {
    Token(Id, Some(name))
  }

  /** `2 + 3 * 4` is `2 + (3 * 4)`. */
  lemma MultiplicationBindsTighter()
    ensures Expression([IntegerToken("2"), Plus, IntegerToken("3"), Times, IntegerToken("4"), EofToken], 0)
         == Success((BinaryOperation(Node.Number(IntegerToken("2")), Plus,
                       BinaryOperation(Node.Number(IntegerToken("3")), Times, Node.Number(IntegerToken("4")))), 5))
  {
    var e := BinaryOperation(Node.Number(IntegerToken("2")), Plus,
               BinaryOperation(Node.Number(IntegerToken("3")), Times, Node.Number(IntegerToken("4"))));
    var ts := [IntegerToken("2"), Plus, IntegerToken("3"), Times, IntegerToken("4"), EofToken];
    assert ExpressionTokens(e) == ts[..5];
    ExpressionRoundTrip(e, ts, 0);
  }

  /** `a - b - c` is `(a - b) - c`. */
  lemma SubtractionFoldsLeft()
    ensures Expression([IdToken("a"), Minus, IdToken("b"), Minus, IdToken("c"), EofToken], 0)
         == Success((BinaryOperation(
                       BinaryOperation(Node.Variable(IdToken("a")), Minus, Node.Variable(IdToken("b"))),
                       Minus, Node.Variable(IdToken("c"))), 5))
  {
    var e := BinaryOperation(
               BinaryOperation(Node.Variable(IdToken("a")), Minus, Node.Variable(IdToken("b"))),
               Minus, Node.Variable(IdToken("c")));
    var ts := [IdToken("a"), Minus, IdToken("b"), Minus, IdToken("c"), EofToken];
    assert ExpressionTokens(e) == ts[..5];
    ExpressionRoundTrip(e, ts, 0);
  }

  /** Any OPERATOR token where a factor is expected, `*` and `/` included,
      is read as `0 op factor`. */
  lemma UnaryOperator(ts: seq<Token>, k: nat)
    requires EofTerminated(ts) && k < |ts| && ts[k].kind == Operator
    ensures k + 1 < |ts|
    ensures Factor(ts, k).Success? <==> Factor(ts, k + 1).Success?
    ensures Factor(ts, k).Success? ==>
              Factor(ts, k).value == (BinaryOperation(Zero, ts[k], Factor(ts, k + 1).value.0),
                                      Factor(ts, k + 1).value.1)
  {
    assert ts[k].kind != Eof;
  }

  /** `* 3` is `0 * 3`. */
  lemma UnaryTimes()
    ensures Factor([Times, IntegerToken("3"), EofToken], 0)
         == Success((BinaryOperation(Zero, Times, Node.Number(IntegerToken("3"))), 2))
  {
    UnaryOperator([Times, IntegerToken("3"), EofToken], 0);
  }

  // ---------------------------------------------------------------------
  // Declarations

  const CommaToken := Token(Comma, Some(","))
  const ColonToken := Token(Colon, Some(":"))
  const SemicolonToken := Token(EndStatement, Some(";"))
  const VarToken := Token(Var, Some("VAR"))

  /** `, n1 , n2 ...`: the tokens after the first name of a list. */
  function CommaNames(ns: seq<Token>): (r: seq<Token>)
    ensures |r| == 2 * |ns|
  {
    if ns == [] then [] else [CommaToken, ns[0]] + CommaNames(ns[1..])
  }

  /** A Variable node per identifier token. */
  function Variables(ns: seq<Token>): (vs: seq<Node>)
    ensures |vs| == |ns|
    ensures forall i | 0 <= i < |ns| :: vs[i] == Node.Variable(ns[i])
  {
    seq(|ns|, i requires 0 <= i < |ns| => Node.Variable(ns[i]))
  }

  predicate AllIds(ns: seq<Token>) {
    forall i | 0 <= i < |ns| :: ns[i].kind == Id
  }

  /** `, n1 , n2 ...` up to a token that is not a comma: the identifier
      loop appends a Variable node per name. */
  lemma {:induction false} IdentifierListRoundTrip(ns: seq<Token>, ts: seq<Token>, k: nat, acc: seq<Node>)
    requires AllIds(ns) && EofTerminated(ts) && forall v <- acc :: IsVariable(v)
    requires At(ts, k, CommaNames(ns)) && k + 2 * |ns| < |ts| && ts[k + 2 * |ns|].kind != Comma
    ensures IdentifierList(ts, k, acc) == Success((acc + Variables(ns), k + 2 * |ns|))
    decreases ns
  {
    if ns == [] {
      assert acc + Variables(ns) == acc;
      assert IdentifierList(ts, k, acc) == Success((acc, k));
    } else {
      var v := Node.Variable(ns[0]);
      CommaNamesParts(ns, ts, k);
      IdentifierStep(ts, k, acc);
      IdentifierListRoundTrip(ns[1..], ts, k + 2, acc + [v]);
      VariablesCons(ns, acc);
    }
  }

  lemma CommaNamesParts(ns: seq<Token>, ts: seq<Token>, k: nat)
    requires 0 < |ns| && AllIds(ns) && At(ts, k, CommaNames(ns))
    ensures ts[k] == CommaToken && ts[k + 1] == ns[0] && ts[k + 1].kind == Id
    ensures At(ts, k + 2, CommaNames(ns[1..])) && AllIds(ns[1..])
  {
    assert CommaNames(ns) == [CommaToken] + [ns[0]] + CommaNames(ns[1..]);
    At3(ts, k, [CommaToken], ns[0], CommaNames(ns[1..]));
    AtIndex(ts, k, [CommaToken], 0);
    assert ns[0].kind == Id;
    forall i | 0 <= i < |ns[1..]| ensures ns[1..][i].kind == Id {
      assert ns[1..][i] == ns[i + 1];
    }
  }

  /** One round of the identifier loop: a comma and an identifier. */
  lemma IdentifierStep(ts: seq<Token>, k: nat, acc: seq<Node>)
    requires EofTerminated(ts) && k + 2 < |ts| && forall v <- acc :: IsVariable(v)
    requires ts[k].kind == Comma && ts[k + 1].kind == Id
    ensures IdentifierList(ts, k, acc) == IdentifierList(ts, k + 2, acc + [Node.Variable(ts[k + 1])])
  {
    assert Advance(ts, k) == k + 1;
    assert Grammar.Variable(ts, k + 1) == Success((Node.Variable(ts[k + 1]), k + 2));
  }

  lemma VariablesCons(ns: seq<Token>, acc: seq<Node>)
    requires 0 < |ns|
    ensures acc + [Node.Variable(ns[0])] + Variables(ns[1..]) == acc + Variables(ns)
  {
  }

  /** `n1, n2, ..., nm : T` gives exactly m declarations, the i-th for the
      i-th name, all with the same Type node for `T`. */
  lemma DeclarationListShape(ns: seq<Token>, tt: Token, ts: seq<Token>, k: nat)
    requires 0 < |ns| && AllIds(ns) && (tt.kind == Integer || tt.kind == Real)
    requires EofTerminated(ts)
    requires At(ts, k, [ns[0]] + CommaNames(ns[1..]) + [ColonToken] + [tt])
    requires k + 2 * |ns| + 1 < |ts|
    ensures VariableDeclarations(ts, k) == Success((Declare(Variables(ns), Type(tt)), k + 2 * |ns| + 1))
  {
    var j := k + 2 * |ns| - 1;
    DeclarationListParts(ns, tt, ts, k);
    IdentifierListRoundTrip(ns[1..], ts, k + 1, [Node.Variable(ns[0])]);
    VariablesCons(ns, []);
    assert [] + [Node.Variable(ns[0])] == [Node.Variable(ns[0])];
    assert [] + Variables(ns) == Variables(ns);
    DeclarationListStep(ts, k, Variables(ns), j, tt);
  }

  /** Where the parts of a declaration list's tokens are. */
  lemma DeclarationListParts(ns: seq<Token>, tt: Token, ts: seq<Token>, k: nat)
    requires 0 < |ns| && AllIds(ns)
    requires At(ts, k, [ns[0]] + CommaNames(ns[1..]) + [ColonToken] + [tt])
    ensures ts[k] == ns[0] && ts[k].kind == Id && AllIds(ns[1..])
    ensures At(ts, k + 1, CommaNames(ns[1..]))
    ensures ts[k + 2 * |ns| - 1] == ColonToken && ts[k + 2 * |ns|] == tt
  {
    var names := [ns[0]] + CommaNames(ns[1..]);
    AtSplit(ts, k, names + [ColonToken], [tt]);
    AtSplit(ts, k, names, [ColonToken]);
    AtSplit(ts, k, [ns[0]], CommaNames(ns[1..]));
    AtIndex(ts, k, [ns[0]], 0);
    AtIndex(ts, k + |names|, [ColonToken], 0);
    AtIndex(ts, k + |names| + 1, [tt], 0);
  }

  /** A declaration list whose identifier loop ends at `j` with the
      variables `vs`, then `:` and a type. */
  lemma DeclarationListStep(ts: seq<Token>, k: nat, vs: seq<Node>, j: nat, tt: Token)
    requires EofTerminated(ts) && k < j && j + 2 < |ts| && ts[k].kind == Id
    requires 0 < |vs| && vs[0] == Node.Variable(ts[k])
    requires IdentifierList(ts, k + 1, [vs[0]]) == Success((vs, j))
    requires ts[j] == ColonToken && ts[j + 1] == tt && (tt.kind == Integer || tt.kind == Real)
    ensures VariableDeclarations(ts, k) == Success((Declare(vs, Type(tt)), j + 2))
  {
    assert Expect(ts, j, Colon) == Success(j + 1);
    assert TypeSpecification(ts, j + 1) == Success((Type(tt), j + 2));
  }

  // ---------------------------------------------------------------------
  // Statement rules

  /** A statement that starts with neither BEGIN nor an identifier is the
      empty statement and consumes nothing. */
  lemma EmptyStatement(ts: seq<Token>, k: nat)
    requires EofTerminated(ts) && k < |ts| && ts[k].kind != Begin && ts[k].kind != Id
    ensures Statement(ts, k) == Success((NoOperation, k))
  {
  }

  /** `BEGIN END` holds one empty statement. */
  lemma EmptyCompound(ts: seq<Token>, k: nat)
    requires EofTerminated(ts) && k + 2 < |ts| && ts[k].kind == Begin && ts[k + 1].kind == End
    ensures CompoundStatement(ts, k) == Success((Compound([NoOperation]), k + 2))
  {
    assert ts[k + 1].kind != Eof;
    assert Statement(ts, k + 1) == Success((NoOperation, k + 1));
    assert StatementListTail(ts, k + 1, [NoOperation]) == Success(([NoOperation], k + 1));
    assert StatementList(ts, k + 1) == Success(([NoOperation], k + 1));
  }

  /** An identifier right after a statement, where `;` or END belongs, is
      an error. */
  lemma MissingSemicolon(ts: seq<Token>, k: nat, s: Node, j: nat)
    requires EofTerminated(ts) && k < |ts|
    requires Statement(ts, k) == Success((s, j)) && ts[j].kind == Id
    ensures StatementList(ts, k) == Failure(MissingSeparator)
  {
  }

  /** After a whole program only EOF may follow. */
  lemma TrailingTokensFail(ts: seq<Token>, k: nat, p: Node, j: nat)
    requires EofTerminated(ts) && k < |ts|
    requires Grammar.Program(ts, k) == Success((p, j)) && ts[j].kind != Eof
    ensures Parse(ts, k) == Failure(UnexpectedEnd(ts[j].kind))
  {
  }
}
