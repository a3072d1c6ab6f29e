/** Parser/Parser.php: the parser object. It keeps a cursor into the token
    list (`position`, the index of the NEXT token) and the current token,
    and moves them one `analyze` at a time. Every method is proved to do
    what the function of the same name in module Grammar computes from the
    cursor it starts at; on success the object's cursor is the function's. */
module Parsing {
  import opened Wrappers
  import opened Tokens
  import opened Ast
  import G = Grammar

  /** The `foreach` that ends `variableDeclarations`: one declaration per
      variable node, in order, each with the same type node. */
  method DeclareEach(varNodes: seq<Node>, typeNode: Node) returns (result: seq<Node>)
    ensures result == G.Declare(varNodes, typeNode)
  {
    result := [];
    for i := 0 to |varNodes|
      invariant result == G.Declare(varNodes[..i], typeNode)
    {
      result := result + [VariableDeclaration(varNodes[i], typeNode)];
    }
    assert varNodes[..|varNodes|] == varNodes;
  }

  class Parser {
    const tokens: seq<Token>
    var position: nat
    /** Never null: the token list is EOF-terminated, so it is not empty and
        `getNextToken` never clears the current token. */
    var currentToken: Token

    /** The current token is the one before `position`. */
    ghost predicate Valid()
      reads this
    {
      && EofTerminated(tokens)
      && 1 <= position <= |tokens|
      && currentToken == tokens[position - 1]
    }

    /** `r` is what the specification `spec` gives: the same node or the
        same error, and on success the cursor is where `spec` leaves it. */
    ghost predicate Agrees<T>(r: Result<T, G.ParseError>, spec: Result<(T, nat), G.ParseError>)
      reads this
    {
      match spec
      case Success(p) => r == Success(p.0) && position == p.1 + 1
      case Failure(e) => r == Failure(e)
    }

    /** The source sets `position` to 0 and reads the first token with
        `getNextToken`, which leaves `position` at 1. */
    constructor (tokens: seq<Token>)
      requires EofTerminated(tokens)
      ensures Valid()
      ensures this.tokens == tokens && position == 1 && currentToken == tokens[0]
    {
      this.tokens := tokens;
      position := 1;
      currentToken := tokens[0];
    }

    /** `getNextToken`: the token at `position`, which becomes current; past
        the end, null, and nothing changes. */
    method GetNextToken() returns (t: Option<Token>)
      requires Valid()
      modifies this`position, this`currentToken
      ensures Valid()
      ensures old(position) < |tokens| ==>
                t == Some(tokens[old(position)]) && position == old(position) + 1
      ensures old(position) == |tokens| ==>
                t == None && position == old(position) && currentToken == old(currentToken)
      ensures position - 1 == G.Advance(tokens, old(position) - 1)
    {
      if position >= |tokens| {
        return None;
      }
      currentToken := tokens[position];
      position := position + 1;
      return Some(currentToken);
    }

    /** `analyze(t)`: fails, changing nothing, unless the current token has
        type `t`; then moves to the next token. */
    method Analyze(t: TokenType) returns (r: Outcome<G.ParseError>)
      requires Valid()
      modifies this`position, this`currentToken
      ensures Valid()
      ensures match G.Expect(tokens, old(position) - 1, t)
        case Success(k) => r == Pass && position == k + 1
        case Failure(e) => r == Fail(e) && position == old(position)
    {
      if currentToken.kind != t {
        return Fail(G.UnexpectedToken(t, currentToken.kind));
      }
      var _ := GetNextToken();
      return Pass;
    }

    /** `factor`. */
    method Factor() returns (r: Result<Node, G.ParseError>)
      requires Valid()
      modifies this`position, this`currentToken
      ensures Valid()
      ensures Agrees(r, G.Factor(tokens, old(position) - 1))
      decreases |tokens| - position, 1
    {
      var token := currentToken;
      match token.kind
      case IntegerConst =>
        var _ := Analyze(IntegerConst);
        return Success(Node.Number(token));
      case RealConst =>
        var _ := Analyze(RealConst);
        return Success(Node.Number(token));
      case OpenParen =>
        r := Parenthesised();
      case Operator =>
        r := UnaryOperation();
      case _ =>
        r := Variable();
    }

    /** The `(` case of `factor`: an expression and the closing `)`. */
    method Parenthesised() returns (r: Result<Node, G.ParseError>)
      requires Valid() && currentToken.kind == OpenParen
      modifies this`position, this`currentToken
      ensures Valid()
      ensures Agrees(r, G.Factor(tokens, old(position) - 1))
      decreases |tokens| - position, 0
    {
      var _ := Analyze(OpenParen);
      var node :- Expression();
      :- Analyze(CloseParen);
      return Success(node);
    }

    /** The OPERATOR case of `factor`: the operator applied to zero and the
        factor after it. */
    method UnaryOperation() returns (r: Result<Node, G.ParseError>)
      requires Valid() && currentToken.kind == Operator
      modifies this`position, this`currentToken
      ensures Valid()
      ensures Agrees(r, G.Factor(tokens, old(position) - 1))
      decreases |tokens| - position, 0
    {
      var token := currentToken;
      var _ := Analyze(Operator);
      var operand :- Factor();
      return Success(BinaryOperation(Zero, token, operand));
    }

    /** `term`: folds `*`, `/` and DIV over factors in a loop. */
    method Term() returns (r: Result<Node, G.ParseError>)
      requires Valid()
      modifies this`position, this`currentToken
      ensures Valid()
      ensures Agrees(r, G.Term(tokens, old(position) - 1))
      decreases |tokens| - position, 2
    {
      var node :- Factor();
      while (currentToken.kind == Operator
             && (currentToken.value == Some("*") || currentToken.value == Some("/")))
            || currentToken.kind == IntegerDiv
        invariant Valid() && IsExpression(node) && old(position) <= position
        invariant G.Term(tokens, old(position) - 1) == G.TermTail(tokens, position - 1, node)
        decreases |tokens| - position
      {
        node :- MultiplyBy(node);
      }
      return Success(node);
    }

    /** One round of the loop in `term`: the operator and the next factor
        make `node` the left operand of a new node. */
    method MultiplyBy(node: Node) returns (r: Result<Node, G.ParseError>)
      requires Valid() && IsExpression(node) && G.IsMulOp(currentToken)
      modifies this`position, this`currentToken
      ensures Valid() && (r.Success? ==> old(position) < position)
      ensures r.Success? ==> IsExpression(r.value)
      ensures G.TermTail(tokens, old(position) - 1, node)
           == if r.Success? then G.TermTail(tokens, position - 1, r.value) else Failure(r.error)
      decreases |tokens| - position, 1
    {
      var token := currentToken;
      G.TermTailUnfold(tokens, position - 1, node);
      if currentToken.kind == IntegerDiv {
        var _ := Analyze(IntegerDiv);
      } else {
        var _ := Analyze(Operator);
      }
      assert position == old(position) + 1;
      var right :- Factor();
      return Success(BinaryOperation(node, token, right));
    }

    /** `expression`: folds `+` and `-` over terms in a loop. */
    method Expression() returns (r: Result<Node, G.ParseError>)
      requires Valid()
      modifies this`position, this`currentToken
      ensures Valid()
      ensures Agrees(r, G.Expression(tokens, old(position) - 1))
      decreases |tokens| - position, 4
    {
      var node :- Term();
      while currentToken.kind == Operator
            && (currentToken.value == Some("+") || currentToken.value == Some("-"))
        invariant Valid() && IsExpression(node) && old(position) <= position
        invariant G.Expression(tokens, old(position) - 1)
               == G.ExpressionTail(tokens, position - 1, node)
        decreases |tokens| - position
      {
        node :- AddTo(node);
      }
      return Success(node);
    }

    /** One round of the loop in `expression`. */
    method AddTo(node: Node) returns (r: Result<Node, G.ParseError>)
      requires Valid() && IsExpression(node) && G.IsAddOp(currentToken)
      modifies this`position, this`currentToken
      ensures Valid() && (r.Success? ==> old(position) < position)
      ensures r.Success? ==> IsExpression(r.value)
      ensures G.ExpressionTail(tokens, old(position) - 1, node)
           == if r.Success? then G.ExpressionTail(tokens, position - 1, r.value) else Failure(r.error)
      decreases |tokens| - position, 3
    {
      var token := currentToken;
      G.ExpressionTailUnfold(tokens, position - 1, node);
      var _ := Analyze(Operator);
      var right :- Term();
      return Success(BinaryOperation(node, token, right));
    }

    /** `variable`. */
    method Variable() returns (r: Result<Node, G.ParseError>)
      requires Valid()
      modifies this`position, this`currentToken
      ensures Valid()
      ensures Agrees(r, G.Variable(tokens, old(position) - 1))
    {
      var node := Node.Variable(currentToken);
      :- Analyze(Id);
      return Success(node);
    }

    /** `assignmentStatement`. */
    method AssignmentStatement() returns (r: Result<Node, G.ParseError>)
      requires Valid()
      modifies this`position, this`currentToken
      ensures Valid()
      ensures Agrees(r, G.AssignmentStatement(tokens, old(position) - 1))
    {
      var left :- Variable();
      var token := currentToken;
      :- Analyze(TokenType.Assignment);
      var right :- Expression();
      return Success(Node.Assignment(left, token, right));
    }

    /** `empty`: the statement that does nothing. */
    function Empty(): (n: Node)
      ensures IsStatement(n) && n.NoOperation?
    {
      NoOperation
    }

    /** `compoundStatement`. */
    method CompoundStatement() returns (r: Result<Node, G.ParseError>)
      requires Valid()
      modifies this`position, this`currentToken
      ensures Valid()
      ensures Agrees(r, G.CompoundStatement(tokens, old(position) - 1))
      decreases |tokens| - position, 0
    {
      var nodes: seq<Node>;
      :- Analyze(Begin);
      nodes :- StatementList();
      :- Analyze(End);
      return Success(Compound(nodes));
    }

    /** `statement`. */
    method Statement() returns (r: Result<Node, G.ParseError>)
      requires Valid()
      modifies this`position, this`currentToken
      ensures Valid()
      ensures Agrees(r, G.Statement(tokens, old(position) - 1))
      decreases |tokens| - position, 1
    {
      var node := Empty();
      if currentToken.kind == Begin {
        node :- CompoundStatement();
      } else if currentToken.kind == Id {
        node :- AssignmentStatement();
      }
      return Success(node);
    }

    /** `statementList`: statements separated by `;`, collected in a loop. */
    method StatementList() returns (r: Result<seq<Node>, G.ParseError>)
      requires Valid()
      modifies this`position, this`currentToken
      ensures Valid()
      ensures Agrees(r, G.StatementList(tokens, old(position) - 1))
      decreases |tokens| - position, 3
    {
      var node :- Statement();
      var results := [node];
      while currentToken.kind == EndStatement
        invariant Valid() && old(position) <= position
        invariant forall s <- results :: IsStatement(s)
        invariant G.StatementList(tokens, old(position) - 1)
               == G.StatementListTail(tokens, position - 1, results)
        decreases |tokens| - position
      {
        results :- NextStatement(results);
      }
      if currentToken.kind == Id {
        return Failure(G.MissingSeparator);
      }
      return Success(results);
    }

    /** One round of the loop in `statementList`: `;` and a statement,
        appended to `results`. */
    method NextStatement(results: seq<Node>) returns (r: Result<seq<Node>, G.ParseError>)
      requires Valid() && currentToken.kind == EndStatement
      requires forall s <- results :: IsStatement(s)
      modifies this`position, this`currentToken
      ensures Valid() && (r.Success? ==> old(position) < position)
      ensures r.Success? ==> forall s <- r.value :: IsStatement(s)
      ensures G.StatementListTail(tokens, old(position) - 1, results)
           == if r.Success? then G.StatementListTail(tokens, position - 1, r.value) else Failure(r.error)
      decreases |tokens| - position, 2
    {
      var _ := Analyze(EndStatement);
      var next :- Statement();
      return Success(results + [next]);
    }

    /** `typeSpecification`. */
    method TypeSpecification() returns (r: Result<Node, G.ParseError>)
      requires Valid()
      modifies this`position, this`currentToken
      ensures Valid()
      ensures Agrees(r, G.TypeSpecification(tokens, old(position) - 1))
    {
      var token := currentToken;
      if token.kind == Integer {
        var _ := Analyze(Integer);
      } else {
        :- Analyze(Real);
      }
      return Success(Type(token));
    }

    /** `variableDeclarations`: the first identifier, the rest collected in
        a loop, then a declaration for each with the one type node. */
    method VariableDeclarations() returns (r: Result<seq<Node>, G.ParseError>)
      requires Valid()
      modifies this`position, this`currentToken
      ensures Valid()
      ensures Agrees(r, G.VariableDeclarations(tokens, old(position) - 1))
    {
      var first :- Variable();
      var varNodes :- IdentifierList([first]);
      r := TypedDeclarations(varNodes);
    }

    /** The identifier loop of `variableDeclarations`, after the first. */
    method IdentifierList(firstNodes: seq<Node>) returns (r: Result<seq<Node>, G.ParseError>)
      requires Valid() && forall v <- firstNodes :: IsVariable(v)
      modifies this`position, this`currentToken
      ensures Valid()
      ensures Agrees(r, G.IdentifierList(tokens, old(position) - 1, firstNodes))
    {
      var varNodes := firstNodes;
      while currentToken.kind == Comma
        invariant Valid() && old(position) <= position
        invariant forall v <- varNodes :: IsVariable(v)
        invariant G.IdentifierList(tokens, old(position) - 1, firstNodes)
               == G.IdentifierList(tokens, position - 1, varNodes)
        decreases |tokens| - position
      {
        varNodes :- NextVariable(varNodes);
      }
      return Success(varNodes);
    }

    /** One round of the identifier loop in `variableDeclarations`: `,` and
        an identifier, whose Variable node is appended to `varNodes`. */
    method NextVariable(varNodes: seq<Node>) returns (r: Result<seq<Node>, G.ParseError>)
      requires Valid() && currentToken.kind == Comma
      requires forall v <- varNodes :: IsVariable(v)
      modifies this`position, this`currentToken
      ensures Valid() && old(position) < position
      ensures r.Success? ==> forall v <- r.value :: IsVariable(v)
      ensures G.IdentifierList(tokens, old(position) - 1, varNodes)
           == if r.Success? then G.IdentifierList(tokens, position - 1, r.value) else Failure(r.error)
    {
      var _ := Analyze(Comma);
      var node := Node.Variable(currentToken);
      :- Analyze(Id);
      return Success(varNodes + [node]);
    }

    /** The end of `variableDeclarations`: `:`, the type, and a declaration
        per variable node. */
    method TypedDeclarations(varNodes: seq<Node>) returns (r: Result<seq<Node>, G.ParseError>)
      requires Valid()
      modifies this`position, this`currentToken
      ensures Valid()
      ensures Agrees(r, G.TypedDeclarations(tokens, old(position) - 1, varNodes))
    {
      var typeNode: Node;
      :- Analyze(Colon);
      typeNode :- TypeSpecification();
      var result := DeclareEach(varNodes, typeNode);
      return Success(result);
    }

    /** `declarations`: after VAR, declaration lists each ended by `;`,
        appended in a loop. */
    method Declarations() returns (r: Result<seq<Node>, G.ParseError>)
      requires Valid()
      modifies this`position, this`currentToken
      ensures Valid()
      ensures Agrees(r, G.Declarations(tokens, old(position) - 1))
    {
      var result := [];
      if currentToken.kind == Var {
        var _ := Analyze(Var);
        while currentToken.kind == Id
          invariant Valid() && forall d <- result :: IsDeclaration(d)
          invariant G.Declarations(tokens, old(position) - 1)
                 == G.DeclarationGroups(tokens, position - 1, result)
          decreases |tokens| - position
        {
          result :- NextGroup(result);
        }
      }
      return Success(result);
    }

    /** One round of the loop in `declarations`: a declaration list and its
        `;`, appended to `result`. */
    method NextGroup(result: seq<Node>) returns (r: Result<seq<Node>, G.ParseError>)
      requires Valid() && currentToken.kind == Id
      requires forall d <- result :: IsDeclaration(d)
      modifies this`position, this`currentToken
      ensures Valid() && (r.Success? ==> old(position) < position)
      ensures r.Success? ==> forall d <- r.value :: IsDeclaration(d)
      ensures G.DeclarationGroups(tokens, old(position) - 1, result)
           == if r.Success? then G.DeclarationGroups(tokens, position - 1, r.value) else Failure(r.error)
    {
      var group :- VariableDeclarations();
      :- Analyze(EndStatement);
      return Success(result + group);
    }

    /** `block`. */
    method Block() returns (r: Result<Node, G.ParseError>)
      requires Valid()
      modifies this`position, this`currentToken
      ensures Valid()
      ensures Agrees(r, G.Block(tokens, old(position) - 1))
    {
      ghost var start := position - 1;
      var declarations :- Declarations();
      ghost var middle := position - 1;
      var compoundStatement :- CompoundStatement();
      G.BlockStep(tokens, start, declarations, middle, compoundStatement, position - 1);
      return Success(Node.Block(declarations, compoundStatement));
    }

    /** `program`: the heading, a block and `.`. */
    method Program() returns (r: Result<Node, G.ParseError>)
      requires Valid()
      modifies this`position, this`currentToken
      ensures Valid()
      ensures Agrees(r, G.Program(tokens, old(position) - 1))
    {
      var programName :- ProgramHeading();
      var block :- Block();
      var node := Node.Program(programName, block);
      :- Analyze(Dot);
      return Success(node);
    }

    /** The first lines of `program`: PROGRAM, the name's variable and `;`. */
    method ProgramHeading() returns (r: Result<string, G.ParseError>)
      requires Valid()
      modifies this`position, this`currentToken
      ensures Valid()
      ensures Agrees(r, G.ProgramHeading(tokens, old(position) - 1))
    {
      var variable: Node;
      :- Analyze(TokenType.Program);
      variable :- Variable();
      var programName := ValueText(Value(variable));
      :- Analyze(EndStatement);
      return Success(programName);
    }

    /** `parse`: a program, then nothing but EOF. */
    method Parse() returns (r: Result<Node, G.ParseError>)
      requires Valid()
      modifies this`position, this`currentToken
      ensures Valid()
      ensures r == G.Parse(tokens, old(position) - 1)
      ensures r.Success? ==> position == |tokens| && currentToken.kind == Eof
    {
      var node :- Program();
      if currentToken.kind != Eof {
        return Failure(G.UnexpectedEnd(currentToken.kind));
      }
      return Success(node);
    }
  }
}
