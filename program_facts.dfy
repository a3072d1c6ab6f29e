/** Whole programs printed back as tokens: a well-formed tree printed as
    the token list the grammar describes parses back to the same tree, so
    the parser reads declarations, statement lists and nested compound
    statements in order and loses nothing. */
module ProgramFacts {
  import opened Wrappers
  import opened Text
  import opened Tokens
  import opened Ast
  import opened Grammar
  import opened GrammarFacts

  const BeginToken := Token(Begin, Some("BEGIN"))
  const EndToken := Token(End, Some("END"))
  const DotToken := Token(Dot, Some("."))
  const ProgramToken := Token(TokenType.Program, Some("PROGRAM"))

  /** No EOF token anywhere in `ts`. */
  predicate NoEof(ts: seq<Token>) {
    forall i | 0 <= i < |ts| :: ts[i].kind != Eof
  }

  lemma NoEofConcat(a: seq<Token>, b: seq<Token>)
    requires NoEof(a) && NoEof(b)
    ensures NoEof(a + b)
  {
    forall i | 0 <= i < |a + b|
      ensures (a + b)[i].kind != Eof
    {
      if i >= |a| {
        assert (a + b)[i] == b[i - |a|];
      }
    }
  }

  // ---------------------------------------------------------------------
  // Statements

  /** Every assignment's expression uses only operators the parser folds. */
  predicate FoldedStatement(s: Node) {
    match s
    case Assignment(_, _, r) => FoldedOperators(r)
    case Compound(cs) => forall c <- cs :: FoldedStatement(c)
    case _ => true
  }

  predicate WellFormedStatement(s: Node) {
    IsStatement(s) && FoldedStatement(s)
  }

  function Width(s: Node): nat {
    if s.Compound? then |s.childNode| else 0
  }

  /** The tokens of a statement: nothing for the empty statement. */
  function StatementTokens(s: Node): seq<Token>
    requires WellFormedStatement(s)
    decreases s, 1
  {
    match s
    case Assignment(l, op, r) => [l.token, op] + ExpressionTokens(r)
    case Compound(cs) => [BeginToken] + StatementTokens(cs[0]) + SeparatedTokens(s, 1) + [EndToken]
    case _ => []
  }

  /** `; s_i ; s_i+1 ...`: the statements of compound `s` from the i-th on,
      each after a `;`. */
  function SeparatedTokens(s: Node, i: nat): seq<Token>
    requires WellFormedStatement(s) && s.Compound? && 1 <= i <= |s.childNode|
    decreases s, 0, |s.childNode| - i
  {
    if i == |s.childNode| then []
    else [SemicolonToken] + StatementTokens(s.childNode[i]) + SeparatedTokens(s, i + 1)
  }

  /** What follows `SeparatedTokens(s, i)` inside a compound statement
      starts with `;` or is the END. */
  lemma SeparatedStart(s: Node, i: nat, ts: seq<Token>, k: nat)
    requires WellFormedStatement(s) && s.Compound? && 1 <= i <= |s.childNode|
    requires At(ts, k, SeparatedTokens(s, i)) && k + |SeparatedTokens(s, i)| < |ts|
    requires ts[k + |SeparatedTokens(s, i)|].kind == End
    ensures k < |ts| && ts[k].kind in {EndStatement, End}
  {
    if i < |s.childNode| {
      AtIndex(ts, k, SeparatedTokens(s, i), 0);
    }
  }

  lemma {:induction false} StatementRoundTrip(s: Node, ts: seq<Token>, k: nat, j: nat)
    requires WellFormedStatement(s) && EofTerminated(ts)
    requires At(ts, k, StatementTokens(s)) && j == k + |StatementTokens(s)| && j < |ts|
    requires ts[j].kind in {EndStatement, End}
    ensures Statement(ts, k) == Success((s, j))
    decreases s, Width(s) + 2
  {
    match s
    case Assignment(_, _, _) =>
      AssignmentRoundTrip(s, ts, k, j);
    case Compound(_) =>
      CompoundRoundTrip(s, ts, k, j);
    case _ =>
  }

  lemma AssignmentRoundTrip(s: Node, ts: seq<Token>, k: nat, j: nat)
    requires WellFormedStatement(s) && s.Assignment? && EofTerminated(ts)
    requires At(ts, k, StatementTokens(s)) && j == k + |StatementTokens(s)| && j < |ts|
    requires ts[j].kind in {EndStatement, End}
    ensures Statement(ts, k) == Success((s, j))
  {
    var e := ExpressionTokens(s.right);
    assert StatementTokens(s) == [s.left.token] + [s.op] + e;
    At3(ts, k, [s.left.token], s.op, e);
    AtIndex(ts, k, [s.left.token], 0);
    ExpressionRoundTrip(s.right, ts, k + 2);
    assert Expression(ts, k + 2) == Success((s.right, j));
    assert Grammar.Variable(ts, k) == Success((s.left, k + 1));
    assert AssignmentStatement(ts, k) == Success((s, j));
  }

  lemma {:induction false} CompoundRoundTrip(s: Node, ts: seq<Token>, k: nat, j: nat)
    requires WellFormedStatement(s) && s.Compound? && EofTerminated(ts)
    requires At(ts, k, StatementTokens(s)) && j == k + |StatementTokens(s)| && j < |ts|
    ensures ts[k].kind == Begin && CompoundStatement(ts, k) == Success((s, j))
    decreases s, Width(s) + 1
  {
    var cs := s.childNode;
    var m, end := CompoundSplit(s, ts, k);
    StatementRoundTrip(cs[0], ts, k + 1, m);
    ListRoundTrip(s, 1, ts, m, end);
    assert cs[..1] == [cs[0]];
    CompoundStep(ts, k, cs, m, end);
  }

  /** `BEGIN s_0 rest END`, split at the end `m` of the first statement
      and the position `j` of END. */
  lemma CompoundSplit(s: Node, ts: seq<Token>, k: nat) returns (m: nat, j: nat)
    requires WellFormedStatement(s) && s.Compound?
    requires At(ts, k, StatementTokens(s)) && k + |StatementTokens(s)| < |ts|
    ensures m == k + 1 + |StatementTokens(s.childNode[0])|
    ensures j + 1 == k + |StatementTokens(s)| && j < |ts|
    ensures ts[k] == BeginToken && ts[j] == EndToken
    ensures At(ts, k + 1, StatementTokens(s.childNode[0]))
    ensures ts[m].kind in {EndStatement, End}
    ensures At(ts, m, SeparatedTokens(s, 1)) && m + |SeparatedTokens(s, 1)| == j
  {
    var first := StatementTokens(s.childNode[0]);
    var rest := SeparatedTokens(s, 1);
    AtSplit(ts, k, [BeginToken] + first + rest, [EndToken]);
    AtSplit(ts, k, [BeginToken] + first, rest);
    AtSplit(ts, k, [BeginToken], first);
    AtIndex(ts, k, [BeginToken], 0);
    m := k + 1 + |first|;
    j := m + |rest|;
    AtIndex(ts, j, [EndToken], 0);
    SeparatedStart(s, 1, ts, m);
  }

  /** BEGIN, a first statement ending at `m`, the rest of the list ending
      at `j`, and END make a compound statement. */
  lemma CompoundStep(ts: seq<Token>, k: nat, cs: seq<Node>, m: nat, j: nat)
    requires EofTerminated(ts) && k + 1 < |ts| && m < |ts| && j < |ts|
    requires 0 < |cs| && forall c <- cs :: IsStatement(c)
    requires ts[k].kind == Begin && ts[j].kind == End
    requires Statement(ts, k + 1) == Success((cs[0], m))
    requires StatementListTail(ts, m, [cs[0]]) == Success((cs, j))
    ensures CompoundStatement(ts, k) == Success((Compound(cs), j + 1))
  {
    assert StatementList(ts, k + 1) == Success((cs, j));
  }

  /** The statement-list loop over the statements of `s` from the i-th on,
      with the first i already read; END is at `j`. */
  lemma {:induction false} ListRoundTrip(s: Node, i: nat, ts: seq<Token>, k: nat, j: nat)
    requires WellFormedStatement(s) && s.Compound? && 1 <= i <= |s.childNode| && EofTerminated(ts)
    requires At(ts, k, SeparatedTokens(s, i)) && j == k + |SeparatedTokens(s, i)| && j < |ts|
    requires ts[j].kind == End
    ensures StatementListTail(ts, k, s.childNode[..i]) == Success((s.childNode, j))
    decreases s, |s.childNode| - i, 1
  {
    if i == |s.childNode| {
      assert s.childNode[..i] == s.childNode;
    } else {
      var m := ListHead(s, i, ts, k, j);
      ListRoundTrip(s, i + 1, ts, m, j);
    }
  }

  /** The `; s_i` that starts `SeparatedTokens(s, i)` is read as a
      statement ending at `m`, where the rest starts. */
  lemma {:induction false} ListHead(s: Node, i: nat, ts: seq<Token>, k: nat, j: nat) returns (m: nat)
    requires WellFormedStatement(s) && s.Compound? && 1 <= i < |s.childNode| && EofTerminated(ts)
    requires At(ts, k, SeparatedTokens(s, i)) && j == k + |SeparatedTokens(s, i)| && j < |ts|
    requires ts[j].kind == End
    ensures m < |ts| && At(ts, m, SeparatedTokens(s, i + 1)) && j == m + |SeparatedTokens(s, i + 1)|
    ensures StatementListTail(ts, k, s.childNode[..i]) == StatementListTail(ts, m, s.childNode[..i + 1])
    decreases s, |s.childNode| - i, 0
  {
    var cs := s.childNode;
    m := SeparatedSplit(s, i, ts, k);
    StatementRoundTrip(cs[i], ts, k + 1, m);
    assert cs[..i + 1] == cs[..i] + [cs[i]];
    ListStep(ts, k, cs[..i], cs[i], m);
  }

  /** `; s_i rest`, split at the end `m` of the i-th statement. */
  lemma SeparatedSplit(s: Node, i: nat, ts: seq<Token>, k: nat) returns (m: nat)
    requires WellFormedStatement(s) && s.Compound? && 1 <= i < |s.childNode|
    requires At(ts, k, SeparatedTokens(s, i)) && k + |SeparatedTokens(s, i)| < |ts|
    requires ts[k + |SeparatedTokens(s, i)|].kind == End
    ensures m == k + 1 + |StatementTokens(s.childNode[i])|
    ensures ts[k] == SemicolonToken
    ensures At(ts, k + 1, StatementTokens(s.childNode[i])) && m < |ts|
    ensures ts[m].kind in {EndStatement, End}
    ensures At(ts, m, SeparatedTokens(s, i + 1))
    ensures m + |SeparatedTokens(s, i + 1)| == k + |SeparatedTokens(s, i)|
  {
    var x := StatementTokens(s.childNode[i]);
    var rest := SeparatedTokens(s, i + 1);
    assert SeparatedTokens(s, i) == [SemicolonToken] + x + rest;
    AtSplit(ts, k, [SemicolonToken] + x, rest);
    AtSplit(ts, k, [SemicolonToken], x);
    AtIndex(ts, k, [SemicolonToken], 0);
    m := k + 1 + |x|;
    SeparatedStart(s, i + 1, ts, m);
  }

  /** A `;` and a statement ending at `m` extend the statement list. */
  lemma ListStep(ts: seq<Token>, k: nat, acc: seq<Node>, c: Node, m: nat)
    requires EofTerminated(ts) && k + 1 < |ts| && m < |ts|
    requires ts[k].kind == EndStatement && IsStatement(c) && forall a <- acc :: IsStatement(a)
    requires Statement(ts, k + 1) == Success((c, m))
    ensures StatementListTail(ts, k, acc) == StatementListTail(ts, m, acc + [c])
  {
  }

  // ---------------------------------------------------------------------
  // Declarations, blocks and programs

  /** `x : T ;` for one declaration. */
  function DeclarationTokens(d: Node): seq<Token>
    requires IsDeclaration(d)
  {
    [d.variable.token, ColonToken, d.typeNode.token, SemicolonToken]
  }

  function GroupTokens(ds: seq<Node>): seq<Token>
    requires forall d <- ds :: IsDeclaration(d)
  {
    if ds == [] then [] else DeclarationTokens(ds[0]) + GroupTokens(ds[1..])
  }

  /** Nothing without declarations; otherwise VAR and a group per
      declaration. */
  function DeclarationsTokens(ds: seq<Node>): seq<Token>
    requires forall d <- ds :: IsDeclaration(d)
  {
    if ds == [] then [] else [VarToken] + GroupTokens(ds)
  }

  lemma OneDeclaration(d: Node, ts: seq<Token>, k: nat)
    requires IsDeclaration(d) && EofTerminated(ts)
    requires At(ts, k, DeclarationTokens(d)) && k + 4 < |ts|
    ensures VariableDeclarations(ts, k) == Success(([d], k + 3))
    ensures ts[k + 3] == SemicolonToken
  {
    var x, tt := d.variable.token, d.typeNode.token;
    assert DeclarationTokens(d) == [x] + CommaNames([]) + [ColonToken] + [tt] + [SemicolonToken];
    AtSplit(ts, k, [x] + CommaNames([]) + [ColonToken] + [tt], [SemicolonToken]);
    AtIndex(ts, k + 3, [SemicolonToken], 0);
    AtIndex(ts, k, DeclarationTokens(d), 0);
    DeclarationListShape([x], tt, ts, k);
    assert Declare(Variables([x]), Type(tt)) == [d];
  }

  lemma {:induction false} GroupsRoundTrip(ds: seq<Node>, ts: seq<Token>, k: nat, acc: seq<Node>, j: nat)
    requires (forall d <- ds :: IsDeclaration(d)) && (forall d <- acc :: IsDeclaration(d))
    requires EofTerminated(ts) && At(ts, k, GroupTokens(ds)) && j == k + |GroupTokens(ds)| && j < |ts|
    requires ts[j].kind != Id
    ensures DeclarationGroups(ts, k, acc) == Success((acc + ds, j))
    decreases ds, 1
  {
    if ds == [] {
      assert acc + ds == acc;
    } else {
      GroupsNext(ds, ts, k, acc, j);
    }
  }

  /** One more declaration group of the declarations loop. */
  lemma {:induction false} GroupsNext(ds: seq<Node>, ts: seq<Token>, k: nat, acc: seq<Node>, j: nat)
    requires 0 < |ds| && (forall d <- ds :: IsDeclaration(d)) && (forall d <- acc :: IsDeclaration(d))
    requires EofTerminated(ts) && At(ts, k, GroupTokens(ds)) && j == k + |GroupTokens(ds)| && j < |ts|
    requires ts[j].kind != Id
    ensures DeclarationGroups(ts, k, acc) == Success((acc + ds, j))
    decreases ds, 0
  {
    GroupSplit(ds, ts, k);
    OneDeclaration(ds[0], ts, k);
    GroupsRoundTrip(ds[1..], ts, k + 4, acc + [ds[0]], j);
    GroupStep(ts, k, ds[0], acc);
    assert acc + [ds[0]] + ds[1..] == acc + ds;
  }

  lemma GroupSplit(ds: seq<Node>, ts: seq<Token>, k: nat)
    requires 0 < |ds| && forall d <- ds :: IsDeclaration(d)
    requires At(ts, k, GroupTokens(ds)) && k + |GroupTokens(ds)| < |ts|
    ensures At(ts, k, DeclarationTokens(ds[0])) && ts[k].kind == Id
    ensures At(ts, k + 4, GroupTokens(ds[1..]))
    ensures k + 4 + |GroupTokens(ds[1..])| == k + |GroupTokens(ds)|
  {
    var g := DeclarationTokens(ds[0]);
    assert GroupTokens(ds) == g + GroupTokens(ds[1..]);
    AtSplit(ts, k, g, GroupTokens(ds[1..]));
    AtIndex(ts, k, g, 0);
  }

  /** One declaration group and its `;` extend the declarations. */
  lemma GroupStep(ts: seq<Token>, k: nat, d: Node, acc: seq<Node>)
    requires EofTerminated(ts) && k + 4 < |ts| && IsDeclaration(d) && forall a <- acc :: IsDeclaration(a)
    requires ts[k].kind == Id && ts[k + 3] == SemicolonToken
    requires VariableDeclarations(ts, k) == Success(([d], k + 3))
    ensures DeclarationGroups(ts, k, acc) == DeclarationGroups(ts, k + 4, acc + [d])
  {
  }

  lemma DeclarationsRoundTrip(ds: seq<Node>, ts: seq<Token>, k: nat, m: nat)
    requires (forall d <- ds :: IsDeclaration(d)) && EofTerminated(ts)
    requires At(ts, k, DeclarationsTokens(ds)) && m == k + |DeclarationsTokens(ds)| && m < |ts|
    requires ts[m].kind == Begin
    ensures Declarations(ts, k) == Success((ds, m))
  {
    if ds != [] {
      AtSplit(ts, k, [VarToken], GroupTokens(ds));
      AtIndex(ts, k, [VarToken], 0);
      GroupsRoundTrip(ds, ts, k + 1, [], m);
      assert [] + ds == ds;
    }
  }

  /** A tree the printer below can print and the parser can return. */
  predicate WellFormedProgram(p: Node) {
    && IsProgram(p)
    && FoldedStatement(p.block.compoundStatement)
  }

  function BlockTokens(b: Node): seq<Token>
    requires IsBlock(b) && FoldedStatement(b.compoundStatement)
  {
    DeclarationsTokens(b.declarations) + StatementTokens(b.compoundStatement)
  }

  /** `PROGRAM name ; block .`, the name as an identifier token. */
  function ProgramTokens(p: Node): seq<Token>
    requires WellFormedProgram(p)
  {
    [ProgramToken, IdToken(p.name), SemicolonToken] + BlockTokens(p.block) + [DotToken]
  }

  lemma BlockRoundTrip(ds: seq<Node>, c: Node, ts: seq<Token>, k: nat, m: nat, j: nat)
    requires (forall d <- ds :: IsDeclaration(d)) && WellFormedStatement(c) && c.Compound?
    requires EofTerminated(ts)
    requires m == k + |DeclarationsTokens(ds)| && j == m + |StatementTokens(c)| && j < |ts|
    requires At(ts, k, DeclarationsTokens(ds)) && At(ts, m, StatementTokens(c))
    ensures Grammar.Block(ts, k) == Success((Node.Block(ds, c), j))
  {
    CompoundRoundTrip(c, ts, m, j);
    DeclarationsRoundTrip(ds, ts, k, m);
    BlockStep(ts, k, ds, m, c, j);
  }

  /** Printing a well-formed program and parsing the tokens, with EOF
      after them, gives the same program back. */
  lemma ProgramRoundTrip(p: Node)
    requires WellFormedProgram(p)
    ensures EofTerminated(ProgramTokens(p) + [EofToken])
    ensures Parse(ProgramTokens(p) + [EofToken], 0) == Success(p)
  {
    var ds, c := p.block.declarations, p.block.compoundStatement;
    var ts, m, j := ProgramLayout(p);
    BlockRoundTrip(ds, c, ts, 3, m, j);
    ProgramStep(ts, p.name, p.block, j);
  }

  /** Where the parts of a printed program lie: the heading at 0, the
      declarations at 3, the compound statement at `m`, the `.` at `j`. */
  lemma ProgramLayout(p: Node) returns (ts: seq<Token>, m: nat, j: nat)
    requires WellFormedProgram(p)
    ensures ts == ProgramTokens(p) + [EofToken] && EofTerminated(ts)
    ensures ts[0] == ProgramToken && ts[1] == IdToken(p.name) && ts[2] == SemicolonToken
    ensures At(ts, 3, DeclarationsTokens(p.block.declarations))
    ensures m == 3 + |DeclarationsTokens(p.block.declarations)|
    ensures At(ts, m, StatementTokens(p.block.compoundStatement))
    ensures j == m + |StatementTokens(p.block.compoundStatement)|
    ensures j + 1 < |ts| && ts[j] == DotToken && ts[j + 1] == EofToken
  {
    var head := [ProgramToken, IdToken(p.name), SemicolonToken];
    var d, st := DeclarationsTokens(p.block.declarations), StatementTokens(p.block.compoundStatement);
    ts := ProgramTokens(p) + [EofToken];
    ProgramNoEof(p);
    assert ts == head + d + st + [DotToken, EofToken];
    Split4(ts, head, d, st, [DotToken, EofToken]);
    AtIndex(ts, 0, head, 0);
    AtIndex(ts, 0, head, 1);
    AtIndex(ts, 0, head, 2);
    m := 3 + |d|;
    j := m + |st|;
    AtIndex(ts, j, [DotToken, EofToken], 0);
    AtIndex(ts, j, [DotToken, EofToken], 1);
  }

  lemma Split4<T>(ts: seq<T>, a: seq<T>, b: seq<T>, c: seq<T>, d: seq<T>)
    requires ts == a + b + c + d
    ensures At(ts, 0, a) && At(ts, |a|, b) && At(ts, |a| + |b|, c) && At(ts, |a| + |b| + |c|, d)
  {
    assert ts[0..|a|] == a;
    assert ts[|a|..|a| + |b|] == b;
    assert ts[|a| + |b|..|a| + |b| + |c|] == c;
    assert ts[|a| + |b| + |c|..|ts|] == d;
  }

  /** PROGRAM, a name, `;`, a block ending at `j`, `.` and EOF. */
  lemma ProgramStep(ts: seq<Token>, name: string, b: Node, j: nat)
    requires EofTerminated(ts) && j + 1 < |ts|
    requires ts[0] == ProgramToken && ts[1] == IdToken(name) && ts[2] == SemicolonToken
    requires Grammar.Block(ts, 3) == Success((b, j))
    requires ts[j] == DotToken && ts[j + 1] == EofToken
    ensures Parse(ts, 0) == Success(Node.Program(name, b))
  {
    assert ProgramHeading(ts, 0) == Success((name, 3));
  }

  // ---------------------------------------------------------------------
  // The printed tokens hold no EOF

  lemma {:induction false} ExpressionNoEof(e: Node)
    requires WellFormed(e)
    ensures NoEof(ExpressionTokens(e))
    decreases e, 2
  {
    if IsAddNode(e) {
      ExpressionNoEof(e.left);
      TermNoEof(e.right);
      NoEofConcat(ExpressionTokens(e.left), [e.op]);
      NoEofConcat(ExpressionTokens(e.left) + [e.op], TermTokens(e.right));
    } else {
      TermNoEof(e);
    }
  }

  lemma {:induction false} TermNoEof(e: Node)
    requires WellFormed(e)
    ensures NoEof(TermTokens(e))
    decreases e, if IsAddNode(e) then 4 else 1
  {
    if IsMulNode(e) {
      TermNoEof(e.left);
      FactorNoEof(e.right);
      NoEofConcat(TermTokens(e.left), [e.op]);
      NoEofConcat(TermTokens(e.left) + [e.op], FactorTokens(e.right));
    } else {
      FactorNoEof(e);
    }
  }

  lemma {:induction false} FactorNoEof(e: Node)
    requires WellFormed(e)
    ensures NoEof(FactorTokens(e))
    decreases e, if e.BinaryOperation? then 3 else 0
  {
    if e.BinaryOperation? {
      ExpressionNoEof(e);
      NoEofConcat([OpenParenToken], ExpressionTokens(e));
      NoEofConcat([OpenParenToken] + ExpressionTokens(e), [CloseParenToken]);
    }
  }

  lemma {:induction false} StatementNoEof(s: Node)
    requires WellFormedStatement(s)
    ensures NoEof(StatementTokens(s))
    decreases s, 1
  {
    match s
    case Assignment(l, op, r) =>
      ExpressionNoEof(r);
      NoEofConcat([l.token, op], ExpressionTokens(r));
    case Compound(cs) =>
      StatementNoEof(cs[0]);
      SeparatedNoEof(s, 1);
      NoEofConcat([BeginToken], StatementTokens(cs[0]));
      NoEofConcat([BeginToken] + StatementTokens(cs[0]), SeparatedTokens(s, 1));
      NoEofConcat([BeginToken] + StatementTokens(cs[0]) + SeparatedTokens(s, 1), [EndToken]);
    case _ =>
  }

  lemma {:induction false} SeparatedNoEof(s: Node, i: nat)
    requires WellFormedStatement(s) && s.Compound? && 1 <= i <= |s.childNode|
    ensures NoEof(SeparatedTokens(s, i))
    decreases s, 0, |s.childNode| - i
  {
    if i < |s.childNode| {
      StatementNoEof(s.childNode[i]);
      SeparatedNoEof(s, i + 1);
      NoEofConcat([SemicolonToken], StatementTokens(s.childNode[i]));
      NoEofConcat([SemicolonToken] + StatementTokens(s.childNode[i]), SeparatedTokens(s, i + 1));
    }
  }

  lemma {:induction false} GroupNoEof(ds: seq<Node>)
    requires forall d <- ds :: IsDeclaration(d)
    ensures NoEof(GroupTokens(ds))
    decreases ds
  {
    if ds != [] {
      GroupNoEof(ds[1..]);
      NoEofConcat(DeclarationTokens(ds[0]), GroupTokens(ds[1..]));
    }
  }

  lemma ProgramNoEof(p: Node)
    requires WellFormedProgram(p)
    ensures NoEof(ProgramTokens(p))
  {
    var ds := p.block.declarations;
    GroupNoEof(ds);
    NoEofConcat([VarToken], GroupTokens(ds));
    StatementNoEof(p.block.compoundStatement);
    NoEofConcat(DeclarationsTokens(ds), StatementTokens(p.block.compoundStatement));
    NoEofConcat([ProgramToken, IdToken(p.name), SemicolonToken], BlockTokens(p.block));
    NoEofConcat([ProgramToken, IdToken(p.name), SemicolonToken] + BlockTokens(p.block), [DotToken]);
  }
}
