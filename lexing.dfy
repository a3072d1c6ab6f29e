/** Lexer/Lexer.php: the lexer object. It keeps a cursor (`position`) and
    the character under it (`currentChar`, None past the end) and moves
    them step by step. Every method is proved to do what the functions of
    module Scanning compute from the cursor it starts at. */
module Lexing {
  import opened Wrappers
  import opened Text
  import opened Tokens
  import opened Scanning

  class Lexer {
    const text: string
    const reservedKeywords: map<string, Token>
    var position: nat
    /** The last token `GetTokens` read. */
    var currentToken: Option<Token>
    var currentChar: Option<char>

    /** The cursor invariant: `currentChar` is the character at `position`,
        or None once the cursor is at the end. */
    ghost predicate Valid()
      reads this
    {
      && position <= |text|
      && currentChar == CharAt(text, position)
      && reservedKeywords == ReservedKeywords
    }

    /** The source reads `text[0]` unguarded, so the text must not be empty. */
    constructor (text: string)
      requires 0 < |text|
      ensures Valid()
      ensures this.text == text && position == 0 && currentToken == None
    {
      this.text := text;
      reservedKeywords := ReservedKeywords;
      position := 0;
      currentToken := None;
      currentChar := Some(text[0]);
    }

    /** `moveCode`: one character forward. */
    method MoveCode() returns (c: Option<char>)
      requires Valid() && currentChar.Some?
      modifies this`position, this`currentChar
      ensures Valid()
      ensures position == old(position) + 1 && c == currentChar
    {
      position := position + 1;
      if position > |text| - 1 {
        currentChar := None;
      } else {
        currentChar := Some(text[position]);
      }
      c := currentChar;
    }

    /** `choose`: the character after the cursor, without moving it. */
    method Choose() returns (c: Option<char>)
      requires Valid()
      ensures c == CharAt(text, position + 1)
    {
      var choosePosition := position + 1;
      if choosePosition > |text| - 1 {
        c := None;
      } else {
        c := Some(text[choosePosition]);
      }
    }

    /** `skipWhitespace`: moves past the whitespace run under the cursor. */
    method SkipWhitespace()
      requires Valid()
      modifies this`position, this`currentChar
      ensures Valid()
      ensures position == RunEnd(text, old(position), IsSpace)
    {
      while currentChar.Some? && IsSpace(currentChar.value)
        invariant Valid() && old(position) <= position
        invariant RunEnd(text, position, IsSpace) == RunEnd(text, old(position), IsSpace)
        decreases |text| - position
      {
        var _ := MoveCode();
      }
    }

    /** `skipComment`: moves past the first `}`. Where the source would loop
        forever at the end of the text, this reports the comment as
        unterminated. */
    method SkipComment() returns (r: Outcome<LexError>)
      requires Valid()
      modifies this`position, this`currentChar
      ensures Valid()
      ensures r.Pass? <==> CommentEnd(text, old(position)).Some?
      ensures r.Pass? ==> position == CommentEnd(text, old(position)).value
      ensures r.Fail? ==> r.error == UnterminatedComment
      ensures old(position) <= position
    {
      while currentChar != Some('}')
        invariant Valid() && old(position) <= position
        invariant RunEnd(text, position, InComment) == RunEnd(text, old(position), InComment)
        decreases |text| - position
      {
        if currentChar.None? {
          return Fail(UnterminatedComment);
        }
        var _ := MoveCode();
      }
      var _ := MoveCode();
      return Pass;
    }

    /** `number`: an integer or real literal starting at the cursor. */
    method Number() returns (t: Token)
      requires Valid()
      modifies this`position, this`currentChar
      ensures Valid()
      ensures (t, position) == ScanNumber(text, old(position))
    {
      var result := DigitRun(position, "");
      if currentChar != Some('.') {
        return Token(IntegerConst, Some(result));
      }
      ghost var dot := position;
      result := result + [currentChar.value];
      var _ := MoveCode();
      result := DigitRun(old(position), result);
      ScanReal(text, old(position), dot, position);
      return Token(RealConst, Some(result));
    }

    /** The digit loops of `number`: the characters from `start` are in
        `result`; the run of digits under the cursor is appended. */
    method DigitRun(ghost start: nat, result: string) returns (r: string)
      requires Valid() && start <= position && result == text[start..position]
      modifies this`position, this`currentChar
      ensures Valid()
      ensures position == RunEnd(text, old(position), IsDigit)
      ensures r == text[start..position]
    {
      r := result;
      while currentChar.Some? && IsDigit(currentChar.value)
        invariant Valid() && old(position) <= position
        invariant r == text[start..position]
        invariant RunEnd(text, position, IsDigit) == RunEnd(text, old(position), IsDigit)
        decreases |text| - position
      {
        r := r + [currentChar.value];
        var _ := MoveCode();
      }
    }

    /** `id`: an identifier or reserved word starting at the cursor. */
    method Id() returns (t: Token)
      requires Valid()
      modifies this`position, this`currentChar
      ensures Valid()
      ensures (t, position) == ScanId(text, old(position))
    {
      var result := "";
      while currentChar.Some? && IsAlnum(currentChar.value)
        invariant Valid() && old(position) <= position
        invariant result == text[old(position)..position]
        invariant RunEnd(text, position, IsAlnum) == RunEnd(text, old(position), IsAlnum)
        decreases |text| - position
      {
        result := result + [currentChar.value];
        var _ := MoveCode();
      }
      if result in reservedKeywords {
        return reservedKeywords[result];
      }
      return Token(TokenType.Id, Some(result));
    }

    /** `getNextToken`: the next token, or the error the source throws.
        Whitespace and comments are skipped in the loop; the branches that
        return a token are in `ReadToken`, in the source's order (their
        conditions exclude each other, so the split changes nothing). */
    method GetNextToken() returns (r: Result<Token, LexError>)
      requires Valid()
      modifies this`position, this`currentChar
      ensures Valid()
      ensures r.Success? ==> NextToken(text, old(position)) == Success((r.value, position))
      ensures r.Failure? ==> NextToken(text, old(position)) == Failure(r.error)
    {
      while currentChar.Some?
        invariant Valid() && old(position) <= position
        invariant NextToken(text, position) == NextToken(text, old(position))
        decreases |text| - position
      {
        var c := currentChar.value;
        if IsSpace(c) || c == '{' {
          var skipped := SkipAny();
          if skipped.Fail? {
            return Failure(skipped.error);
          }
          continue;
        }
        r := ReadToken();
        return;
      }
      return Success(EofToken);
    }

    /** The branches of `getNextToken` that skip whitespace or a comment
        and go round the loop again. */
    method SkipAny() returns (r: Outcome<LexError>)
      requires Valid() && currentChar.Some?
      requires IsSpace(currentChar.value) || currentChar.value == '{'
      modifies this`position, this`currentChar
      ensures Valid() && old(position) < position
      ensures r.Pass? ==> NextToken(text, old(position)) == NextToken(text, position)
      ensures r.Fail? ==> NextToken(text, old(position)) == Failure(r.error)
    {
      if IsSpace(currentChar.value) {
        WhitespaceStep(text, position);
        SkipWhitespace();
        return Pass;
      }
      CommentStep(text, position);
      var _ := MoveCode();
      r := SkipComment();
    }

    /** The branches of `getNextToken` that read a token (or fail on an
        unknown character) at a character that is neither whitespace nor
        `{`. */
    method ReadToken() returns (r: Result<Token, LexError>)
      requires Valid() && currentChar.Some?
      requires !IsSpace(currentChar.value) && currentChar.value != '{'
      modifies this`position, this`currentChar
      ensures Valid()
      ensures r.Success? ==> NextToken(text, old(position)) == Success((r.value, position))
      ensures r.Failure? ==> NextToken(text, old(position)) == Failure(r.error)
    {
      var c := currentChar.value;
      if IsDigit(c) {
        var t := Number();
        return Success(t);
      }
      if c == '+' || c == '-' || c == '*' || c == '/' || c == '(' || c == ')' {
        r := ReadSymbol();
        return;
      }
      if IsLetter(c) {
        var t := Id();
        return Success(t);
      }
      if c == ':' {
        var next := Choose();
        if next == Some('=') {
          var _ := MoveCode();
          var _ := MoveCode();
          return Success(Token(TokenType.Assignment, Some(":=")));
        }
      }
      if c == ';' || c == '.' || c == ':' || c == ',' {
        r := ReadSymbol();
        return;
      }
      return Failure(UnknownToken(c, position));
    }

    /** The one-character tokens of `getNextToken`. */
    method ReadSymbol() returns (r: Result<Token, LexError>)
      requires Valid() && currentChar.Some?
      requires currentChar.value in "+-*/();.:,"
      requires currentChar.value == ':' ==> CharAt(text, position + 1) != Some('=')
      modifies this`position, this`currentChar
      ensures Valid()
      ensures r.Success? && NextToken(text, old(position)) == Success((r.value, position))
    {
      var c := currentChar.value;
      var _ := MoveCode();
      if c == '+' {
        return Success(Token(Operator, Some("+")));
      }
      if c == '-' {
        return Success(Token(Operator, Some("-")));
      }
      if c == '*' {
        return Success(Token(Operator, Some("*")));
      }
      if c == '/' {
        return Success(Token(Operator, Some("/")));
      }
      if c == '(' {
        return Success(Token(OpenParen, Some("(")));
      }
      if c == ')' {
        return Success(Token(CloseParen, Some(")")));
      }
      if c == ';' {
        return Success(Token(EndStatement, Some(";")));
      }
      if c == '.' {
        return Success(Token(Dot, Some(".")));
      }
      if c == ':' {
        return Success(Token(Colon, Some(":")));
      }
      return Success(Token(Comma, Some(",")));
    }

    /** `getTokens`: reads tokens until EOF and returns them all, EOF last. */
    method GetTokens() returns (r: Result<seq<Token>, LexError>)
      requires Valid()
      modifies this`position, this`currentChar, this`currentToken
      ensures Valid()
      ensures r == Tokenize(text, old(position))
    {
      var result: seq<Token> := [];
      ghost var start: nat := position;
      var next := GetNextToken();
      TokenizeStep(text, start);
      if next.Failure? {
        return Failure(next.error);
      }
      var t := next.value;
      currentToken := Some(t);
      assert Prepend(result, Tokenize(text, start)) == Tokenize(text, start) by {
        if Tokenize(text, start).Success? {
          assert result + Tokenize(text, start).value == Tokenize(text, start).value;
        }
      }
      while t.kind != Eof
        invariant Valid() && currentToken == Some(t) && start <= position
        invariant NextToken(text, start) == Success((t, position))
        invariant Tokenize(text, old(position)) == Prepend(result, Tokenize(text, start))
        decreases |text| - start
      {
        TokenizeStep(text, start);
        PrependPrepend(result, [t], Tokenize(text, position));
        result := result + [t];
        start := position;
        next := GetNextToken();
        TokenizeStep(text, start);
        if next.Failure? {
          return Failure(next.error);
        }
        t := next.value;
        currentToken := Some(t);
      }
      TokenizeStep(text, start);
      result := result + [t];
      return Success(result);
    }
  }
}
