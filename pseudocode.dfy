/** Parser/PseudoCodeGenerator.php: renders a tree as line-oriented
    pseudocode by structural recursion. */
module PseudoCode {
  import opened Wrappers
  import opened Text
  import opened Tokens
  import opened Ast

  /** `implode("\n", xs)`. */
  function Join(xs: seq<string>): string {
    if |xs| == 0 then ""
    else if |xs| == 1 then xs[0]
    else xs[0] + "\n" + Join(xs[1..])
  }

  predicate NotNewline(c: char) {
    c != '\n'
  }

  /** `explode("\n", s)`: the lines of `s`. */
  function Split(s: string): (lines: seq<string>)
    ensures 0 < |lines|
    decreases |s|
  {
    var i := RunEnd(s, 0, NotNewline);
    if i == |s| then [s] else [s[..i]] + Split(s[i + 1..])
  }

  /** The nodes `generate` can render without failing. A Type node is not in
      its dispatch ("Unknown node type"), and a Block's compound statement
      must have a child list. Fields that are read through `->value` need
      nothing: a missing property reads as null, printed as "". */
  predicate Renderable(n: Node) {
    match n
    case Program(_, b) => Renderable(b)
    case Block(ds, c) =>
      && (forall d <- ds :: Renderable(d))
      && c.Compound?
      && (forall s <- c.childNode :: Renderable(s))
    case Compound(cs) => forall c <- cs :: Renderable(c)
    case VariableDeclaration(_, _) => true
    case Type(_) => false
    case Assignment(_, _, r) => Renderable(r)
    case BinaryOperation(l, _, r) => Renderable(l) && Renderable(r)
    case Number(_) => true
    case Variable(_) => true
    case NoOperation => true
  }

  /** The text `"{$node->value}"` prints for a node. */
  function PrintedValue(n: Node): string {
    ValueText(Value(n))
  }

  /** `generate`: the pseudocode for a node. */
  function Generate(n: Node): (s: string)
    requires Renderable(n)
    ensures n.BinaryOperation? ==> 2 <= |s| && s[0] == '(' && s[|s| - 1] == ')'
  {
    match n
    case Program(_, b) => Generate(b)
    case Block(ds, c) => Join(GenerateAll(ds) + GenerateAll(c.childNode))
    case Compound(cs) => Join(GenerateAll(cs))
    case VariableDeclaration(v, t) => "DECLARE " + PrintedValue(v) + " AS " + PrintedValue(t)
    case Assignment(l, _, r) => PrintedValue(l) + " := " + Generate(r)
    case BinaryOperation(l, op, r) =>
      "(" + Generate(l) + " " + ValueText(op.value) + " " + Generate(r) + ")"
    case Number(t) => ValueText(t.value)
    case Variable(t) => ValueText(t.value)
    case NoOperation => ""
  }

  /** `array_map([$this, 'generate'], ns)`. */
  function GenerateAll(ns: seq<Node>): seq<string>
    requires forall n <- ns :: Renderable(n)
  {
    seq(|ns|, i requires 0 <= i < |ns| => Generate(ns[i]))
  }

  // ---------------------------------------------------------------------
  // Parser output renders

  lemma {:induction false} ExpressionRenders(e: Node)
    requires IsExpression(e)
    ensures Renderable(e)
    decreases e
  {
    if e.BinaryOperation? {
      ExpressionRenders(e.left);
      ExpressionRenders(e.right);
    }
  }

  lemma {:induction false} StatementRenders(s: Node)
    requires IsStatement(s)
    ensures Renderable(s)
    decreases s
  {
    if s.Assignment? {
      ExpressionRenders(s.right);
    } else if s.Compound? {
      forall c <- s.childNode ensures Renderable(c) {
        StatementRenders(c);
      }
    }
  }

  /** Every tree the parser returns renders: `generate` never reaches its
      "Unknown node type" exception on a parsed program. */
  lemma ProgramRenders(p: Node)
    requires IsProgram(p)
    ensures Renderable(p)
  {
    forall s <- p.block.compoundStatement.childNode ensures Renderable(s) {
      StatementRenders(s);
    }
  }

  // ---------------------------------------------------------------------
  // Line structure of the output

  /** The lines a node renders as: one per declaration and per simple
      statement, with nested compounds inlined line by line. A compound
      without children still renders one empty line. */
  function Lines(n: Node): (ls: seq<string>)
    requires Renderable(n)
    ensures ls != []
  {
    match n
    case Program(_, b) => Lines(b)
    case Block(ds, c) =>
      var ls := GenerateAll(ds) + ChildLines(c.childNode);
      if ls == [] then [""] else ls
    case Compound(cs) => if cs == [] then [""] else ChildLines(cs)
    case _ => [Generate(n)]
  }

  /** The lines of a list of statements, one after the other. */
  function ChildLines(cs: seq<Node>): (ls: seq<string>)
    requires forall c <- cs :: Renderable(c)
    ensures cs != [] ==> ls != []
  {
    if cs == [] then [] else Lines(cs[0]) + ChildLines(cs[1..])
  }

  lemma {:induction false} JoinConcat(a: seq<string>, b: seq<string>)
    requires a != [] && b != []
    ensures Join(a + b) == Join(a) + "\n" + Join(b)
    decreases |a|
  {
    if |a| == 1 {
      assert (a + b)[1..] == b;
    } else {
      assert (a + b)[1..] == a[1..] + b;
      JoinConcat(a[1..], b);
    }
  }

  /** Joining the renderings of some statements is joining all their lines. */
  lemma {:induction false} JoinChildren(cs: seq<Node>)
    requires forall c <- cs :: Renderable(c)
    requires forall c <- cs :: Generate(c) == Join(Lines(c))
    ensures Join(GenerateAll(cs)) == Join(ChildLines(cs))
    decreases |cs|
  {
    if |cs| > 1 {
      var rest := cs[1..];
      assert GenerateAll(cs) == [Generate(cs[0])] + GenerateAll(rest);
      JoinChildren(rest);
      JoinConcat(Lines(cs[0]), ChildLines(rest));
    } else if |cs| == 1 {
      assert ChildLines(cs) == Lines(cs[0]);
    }
  }

  /** The output of a node is exactly its lines joined with "\n". */
  lemma {:induction false} GenerateIsJoinedLines(n: Node)
    requires Renderable(n)
    ensures Generate(n) == Join(Lines(n))
    decreases n
  {
    match n
    case Program(_, b) =>
      GenerateIsJoinedLines(b);
    case Block(ds, c) =>
      var cs := c.childNode;
      forall s <- cs ensures Generate(s) == Join(Lines(s)) {
        GenerateIsJoinedLines(s);
      }
      JoinChildren(cs);
      if ds != [] && cs != [] {
        JoinConcat(GenerateAll(ds), GenerateAll(cs));
        JoinConcat(GenerateAll(ds), ChildLines(cs));
      } else if ds == [] {
        assert GenerateAll(ds) + GenerateAll(cs) == GenerateAll(cs);
        assert GenerateAll(ds) + ChildLines(cs) == ChildLines(cs);
      } else {
        assert GenerateAll(ds) + GenerateAll(cs) == GenerateAll(ds);
        assert GenerateAll(ds) + ChildLines(cs) == GenerateAll(ds);
      }
    case Compound(cs) =>
      forall s <- cs ensures Generate(s) == Join(Lines(s)) {
        GenerateIsJoinedLines(s);
      }
      JoinChildren(cs);
    case _ =>
  }

  /** `explode` undoes `implode` when no line holds a line break. */
  lemma {:induction false} SplitJoin(xs: seq<string>)
    requires xs != []
    requires forall x <- xs :: forall k | 0 <= k < |x| :: x[k] != '\n'
    ensures Split(Join(xs)) == xs
    decreases |xs|
  {
    var s := Join(xs);
    var x := xs[0];
    if |xs| == 1 {
      RunEndUnique(s, 0, |x|, NotNewline);
    } else {
      assert s == x + "\n" + Join(xs[1..]);
      assert s[|x|] == '\n';
      RunEndUnique(s, 0, |x|, NotNewline);
      assert s[..|x|] == x;
      assert s[|x| + 1..] == Join(xs[1..]);
      SplitJoin(xs[1..]);
    }
  }

  /** Reading the output back line by line gives exactly the declaration
      lines, in order, followed by the statement lines. */
  lemma RenderedLines(b: Node)
    requires Renderable(b) && b.Block?
    requires forall l <- Lines(b) :: forall k | 0 <= k < |l| :: l[k] != '\n'
    ensures Split(Generate(b)) == Lines(b)
    ensures b.declarations != [] || b.compoundStatement.childNode != [] ==>
              Lines(b) == GenerateAll(b.declarations) + ChildLines(b.compoundStatement.childNode)
  {
    GenerateIsJoinedLines(b);
    SplitJoin(Lines(b));
  }

  /** A program renders exactly as its block: the name never appears. */
  lemma ProgramRendersAsBlock(name: string, other: string, b: Node)
    requires Renderable(b)
    ensures Generate(Node.Program(name, b)) == Generate(b) == Generate(Node.Program(other, b))
  {
  }

  // ---------------------------------------------------------------------
  // Parentheses in rendered expressions

  /** Open minus closed parentheses in `s`. */
  function Depth(s: string): int
    decreases |s|
  {
    if s == [] then 0
    else
      var c := s[|s| - 1];
      Depth(s[..|s| - 1]) + (if c == '(' then 1 else if c == ')' then -1 else 0)
  }

  /** Every prefix closes no more parentheses than it opens, and the whole
      string closes all it opens. */
  predicate Balanced(s: string) {
    Depth(s) == 0 && forall i | 0 <= i <= |s| :: 0 <= Depth(s[..i])
  }

  predicate ParenFree(s: string) {
    forall k | 0 <= k < |s| :: s[k] != '(' && s[k] != ')'
  }

  lemma {:induction false} DepthAppend(a: string, b: string)
    ensures Depth(a + b) == Depth(a) + Depth(b)
    decreases |b|
  {
    if b == [] {
      assert a + b == a;
    } else {
      assert (a + b)[..|a + b| - 1] == a + b[..|b| - 1];
      DepthAppend(a, b[..|b| - 1]);
    }
  }

  lemma {:induction false} ParenFreeDepth(s: string)
    requires ParenFree(s)
    ensures Depth(s) == 0
    decreases |s|
  {
    if s != [] {
      ParenFreeDepth(s[..|s| - 1]);
    }
  }

  lemma ParenFreeBalanced(s: string)
    requires ParenFree(s)
    ensures Balanced(s)
  {
    ParenFreeDepth(s);
    forall i | 0 <= i <= |s| ensures 0 <= Depth(s[..i]) {
      ParenFreeDepth(s[..i]);
    }
  }

  lemma BalancedConcat(a: string, b: string)
    requires Balanced(a) && Balanced(b)
    ensures Balanced(a + b)
  {
    DepthAppend(a, b);
    forall i | 0 <= i <= |a + b| ensures 0 <= Depth((a + b)[..i]) {
      if i <= |a| {
        assert (a + b)[..i] == a[..i];
      } else {
        assert (a + b)[..i] == a + b[..i - |a|];
        DepthAppend(a, b[..i - |a|]);
      }
    }
  }

  lemma BalancedWrap(s: string)
    requires Balanced(s)
    ensures Balanced("(" + s + ")")
  {
    var w := "(" + s + ")";
    DepthAppend("(", s);
    DepthAppend("(" + s, ")");
    forall i | 0 <= i <= |w| ensures 0 <= Depth(w[..i]) {
      if i == 0 {
        assert w[..i] == [];
      } else if i <= |s| + 1 {
        assert w[..i] == "(" + s[..i - 1];
        DepthAppend("(", s[..i - 1]);
      } else {
        assert w[..i] == w;
      }
    }
  }

  lemma BalancedOperation(a: string, v: string, b: string)
    requires Balanced(a) && ParenFree(v) && Balanced(b)
    ensures Balanced("(" + a + " " + v + " " + b + ")")
  {
    var mid := " " + v + " ";
    assert ParenFree(mid);
    ParenFreeBalanced(mid);
    BalancedConcat(a, mid);
    BalancedConcat(a + mid, b);
    BalancedWrap(a + mid + b);
    assert "(" + a + " " + v + " " + b + ")" == "(" + (a + mid + b) + ")";
  }

  /** The texts an expression's rendering is built from: its leaves' and
      its operators' values. */
  predicate LeavesParenFree(e: Node) {
    match e
    case BinaryOperation(l, op, r) =>
      ParenFree(ValueText(op.value)) && LeavesParenFree(l) && LeavesParenFree(r)
    case _ => ParenFree(ValueText(Value(e)))
  }

  /** Expressions render fully parenthesised: every operation is wrapped in
      its own pair of parentheses, so the output is balanced. */
  lemma {:induction false} ExpressionBalanced(e: Node)
    requires IsExpression(e) && LeavesParenFree(e)
    ensures Renderable(e) && Balanced(Generate(e))
    decreases e
  {
    match e
    case BinaryOperation(l, op, r) =>
      ExpressionBalanced(l);
      ExpressionBalanced(r);
      BalancedOperation(Generate(l), ValueText(op.value), Generate(r));
    case Number(t) =>
      ParenFreeBalanced(ValueText(t.value));
    case Variable(t) =>
      ParenFreeBalanced(ValueText(t.value));
  }
}
