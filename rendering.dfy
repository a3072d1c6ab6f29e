/** What `generate` prints for what the parser builds: the DECLARE line of
    every declared name, an assignment as `name := expression` without
    outer parentheses, and a worked program from tokens to output. */
module Rendering {
  import opened Wrappers
  import opened Text
  import opened Tokens
  import opened Ast
  import opened Grammar
  import opened GrammarFacts
  import opened PseudoCode

  /** `DECLARE n AS T` for each name of a declaration list. */
  function DeclareLines(ns: seq<Token>, tt: Token): seq<string> {
    seq(|ns|, i requires 0 <= i < |ns| => "DECLARE " + ValueText(ns[i].value) + " AS " + ValueText(tt.value))
  }

  /** `n1, ..., nm : T` renders as one line `DECLARE ni AS T` per name, in
      the order of the names. */
  lemma DeclarationListRendering(ns: seq<Token>, tt: Token, ts: seq<Token>, k: nat)
    requires 0 < |ns| && AllIds(ns) && (tt.kind == Integer || tt.kind == Real)
    requires EofTerminated(ts)
    requires At(ts, k, [ns[0]] + CommaNames(ns[1..]) + [ColonToken] + [tt])
    requires k + 2 * |ns| + 1 < |ts|
    ensures VariableDeclarations(ts, k).Success?
    ensures var ds := VariableDeclarations(ts, k).value.0;
            && (forall d <- ds :: Renderable(d))
            && GenerateAll(ds) == DeclareLines(ns, tt)
  {
    DeclarationListShape(ns, tt, ts, k);
    var ds := Declare(Variables(ns), Type(tt));
    assert |GenerateAll(ds)| == |ns|;
    forall i | 0 <= i < |ns|
      ensures GenerateAll(ds)[i] == DeclareLines(ns, tt)[i]
    {
      assert ds[i] == VariableDeclaration(Node.Variable(ns[i]), Type(tt));
    }
  }

  /** An assignment renders as the variable's name, ` := ` and the
      rendering of the expression after `:=`, with no parentheses of its
      own around it. */
  lemma AssignmentRendering(ts: seq<Token>, k: nat)
    requires EofTerminated(ts) && k < |ts| && AssignmentStatement(ts, k).Success?
    ensures k + 2 < |ts| && ts[k].kind == Id && ts[k + 1].kind == TokenType.Assignment
    ensures Expression(ts, k + 2).Success?
    ensures var s, e := AssignmentStatement(ts, k).value.0, Expression(ts, k + 2).value.0;
            && Renderable(s) && Renderable(e)
            && Generate(s) == ValueText(ts[k].value) + " := " + Generate(e)
  {
    var e := Expression(ts, k + 2).value.0;
    ExpressionRenders(e);
    assert AssignmentStatement(ts, k).value.0 == Node.Assignment(Node.Variable(ts[k]), ts[k + 1], e);
  }

  // ---------------------------------------------------------------------
  // A worked program: a declaration, a unary minus, an empty statement

  const AssignToken := Token(TokenType.Assignment, Some(":="))
  const IntegerTypeToken := Token(Integer, Some("INTEGER"))
  const BeginToken := Token(Begin, Some("BEGIN"))
  const EndToken := Token(End, Some("END"))
  const DotToken := Token(Dot, Some("."))
  const ProgramToken := Token(TokenType.Program, Some("PROGRAM"))

  /** The tokens of `PROGRAM p ; VAR x : INTEGER ; BEGIN x := - 5 ; END .`
      and EOF. */
  predicate UnaryMinusTokens(t: seq<Token>) {
    && |t| == 17
    && t[0] == ProgramToken && t[1] == IdToken("p") && t[2] == SemicolonToken
    && t[3] == VarToken && t[4] == IdToken("x") && t[5] == ColonToken
    && t[6] == IntegerTypeToken && t[7] == SemicolonToken
    && t[8] == BeginToken && t[9] == IdToken("x") && t[10] == AssignToken
    && t[11] == Minus && t[12] == IntegerToken("5") && t[13] == SemicolonToken
    && t[14] == EndToken && t[15] == DotToken && t[16] == EofToken
  }

  /** The tree of the worked program: `-5` is read as `0 - 5`, and the `;`
      before END leaves an empty statement. */
  function UnaryMinusTree(): Node {
    Node.Program("p", Node.Block([Declared], Compound([AssignX, NoOperation])))
  }

  const Declared := VariableDeclaration(Node.Variable(IdToken("x")), Type(IntegerTypeToken))
  const NegatedFive := BinaryOperation(Zero, Minus, Node.Number(IntegerToken("5")))
  const AssignX := Node.Assignment(Node.Variable(IdToken("x")), AssignToken, NegatedFive)

  /** `VAR x : INTEGER ;` gives one declaration. */
  lemma UnaryMinusDeclarations(t: seq<Token>)
    requires UnaryMinusTokens(t)
    ensures EofTerminated(t)
    ensures Declarations(t, 3) == Success(([Declared], 8))
  {
    assert EofTerminated(t);
    var v := Node.Variable(IdToken("x"));
    assert IdentifierList(t, 5, [v]) == Success(([v], 5));
    assert TypeSpecification(t, 6) == Success((Type(IntegerTypeToken), 7));
    assert Declare([v], Type(IntegerTypeToken))[0] == Declared;
    assert Declare([v], Type(IntegerTypeToken)) == [Declared];
    assert TypedDeclarations(t, 5, [v]) == Success(([Declared], 7));
    assert VariableDeclarations(t, 4) == Success(([Declared], 7));
    assert DeclarationGroups(t, 8, [Declared]) == Success(([Declared], 8));
    assert [] + [Declared] == [Declared];
    assert DeclarationGroups(t, 4, []) == Success(([Declared], 8));
  }

  /** `x := - 5` reads `- 5` as `0 - 5`. */
  lemma UnaryMinusAssignment(t: seq<Token>)
    requires UnaryMinusTokens(t)
    ensures EofTerminated(t)
    ensures AssignmentStatement(t, 9) == Success((AssignX, 13))
  {
    assert EofTerminated(t);
    assert Factor(t, 12) == Success((Node.Number(IntegerToken("5")), 13));
    assert Factor(t, 11) == Success((NegatedFive, 13));
    assert TermTail(t, 13, NegatedFive) == Success((NegatedFive, 13));
    assert Term(t, 11) == Success((NegatedFive, 13));
    assert ExpressionTail(t, 13, NegatedFive) == Success((NegatedFive, 13));
    assert Expression(t, 11) == Success((NegatedFive, 13));
  }

  /** `BEGIN x := - 5 ; END` holds the assignment and an empty statement. */
  lemma UnaryMinusCompound(t: seq<Token>)
    requires UnaryMinusTokens(t)
    ensures EofTerminated(t)
    ensures CompoundStatement(t, 8) == Success((Compound([AssignX, NoOperation]), 15))
  {
    UnaryMinusAssignment(t);
    assert Statement(t, 9) == Success((AssignX, 13));
    assert Statement(t, 14) == Success((NoOperation, 14));
    assert [AssignX] + [NoOperation] == [AssignX, NoOperation];
    assert StatementListTail(t, 14, [AssignX, NoOperation]) == Success(([AssignX, NoOperation], 14));
    assert StatementListTail(t, 13, [AssignX]) == Success(([AssignX, NoOperation], 14));
    assert StatementList(t, 9) == Success(([AssignX, NoOperation], 14));
  }

  /** The parser reads the worked program's tokens as its tree. */
  lemma UnaryMinusParses(t: seq<Token>)
    requires UnaryMinusTokens(t)
    ensures EofTerminated(t)
    ensures Parse(t, 0) == Success(UnaryMinusTree())
  {
    UnaryMinusDeclarations(t);
    UnaryMinusCompound(t);
    BlockStep(t, 3, [Declared], 8, Compound([AssignX, NoOperation]), 15);
    var b := Node.Block([Declared], Compound([AssignX, NoOperation]));
    assert UnaryMinusTree() == Node.Program("p", b);
    assert Expect(t, 0, TokenType.Program) == Success(1);
    assert Grammar.Variable(t, 1) == Success((Node.Variable(IdToken("p")), 2));
    assert Expect(t, 2, EndStatement) == Success(3);
    assert ProgramHeading(t, 0) == Success(("p", 3));
    assert Expect(t, 15, Dot) == Success(16);
    assert Grammar.Program(t, 0) == Success((UnaryMinusTree(), 16));
  }

  /** The worked program's declaration and assignment lines. */
  lemma UnaryMinusLines()
    ensures Generate(Declared) == "DECLARE x AS INTEGER"
    ensures Generate(AssignX) == "x := (0 - 5)"
  {
    assert Generate(NegatedFive) == "(0 - 5)";
  }

  const UnaryMinusLineList := ["DECLARE x AS INTEGER", "x := (0 - 5)", ""]

  /** The worked program's block renders one line per declaration and per
      statement. */
  lemma UnaryMinusBlockLines()
    ensures GenerateAll([Declared]) + GenerateAll([AssignX, NoOperation]) == UnaryMinusLineList
  {
    UnaryMinusLines();
    assert GenerateAll([Declared]) == UnaryMinusLineList[..1];
    assert GenerateAll([AssignX, NoOperation]) == UnaryMinusLineList[1..];
  }

  /** Those lines joined: the empty last line leaves a trailing newline. */
  lemma UnaryMinusJoin()
    ensures Join(UnaryMinusLineList) == "DECLARE x AS INTEGER\nx := (0 - 5)\n"
  {
    assert Join(UnaryMinusLineList[1..][1..]) == "";
    assert Join(UnaryMinusLineList[1..]) == "x := (0 - 5)\n";
  }

  /** The worked program's tree prints as a declaration line, the
      assignment line and a final empty line. */
  lemma UnaryMinusOutput(p: Node)
    requires p == UnaryMinusTree()
    ensures Renderable(p)
    ensures Generate(p) == "DECLARE x AS INTEGER\nx := (0 - 5)\n"
  {
    ProgramRenders(p);
    UnaryMinusBlockLines();
    UnaryMinusJoin();
    assert Generate(p) == Join(GenerateAll([Declared]) + GenerateAll([AssignX, NoOperation]));
  }

  /** From tokens to pseudocode: `x := - 5` prints as `x := (0 - 5)`, the
      declaration as `DECLARE x AS INTEGER`, and the empty statement before
      END as a final empty line. */
  lemma UnaryMinusRendering(t: seq<Token>)
    requires UnaryMinusTokens(t)
    ensures EofTerminated(t)
    ensures Parse(t, 0).Success? && Renderable(Parse(t, 0).value)
    ensures Generate(Parse(t, 0).value) == "DECLARE x AS INTEGER\nx := (0 - 5)\n"
  {
    UnaryMinusParses(t);
    UnaryMinusOutput(UnaryMinusTree());
  }
}
