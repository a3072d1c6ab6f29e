/** The lexer of Lexer/Lexer.php as pure functions of the text and a
    cursor position. The class in module Lexing runs the same steps on its
    fields and is proved to agree with these functions. */
module Scanning {
  import opened Wrappers
  import opened Text
  import opened Tokens

  /** The lexer's exceptions. The source never ends an unterminated comment
      (its loop keeps moving past the end); here that case is an error. */
  datatype LexError =
    | UnknownToken(ch: char, position: nat)
    | UnterminatedComment

  /** The reserved-word table, matched case-sensitively. */
  const ReservedKeywords: map<string, Token> := map[
    "PROGRAM" := Token(Program, Some("PROGRAM")),
    "VAR" := Token(Var, Some("VAR")),
    "DIV" := Token(IntegerDiv, Some("DIV")),
    "INTEGER" := Token(Integer, Some("INTEGER")),
    "REAL" := Token(Real, Some("REAL")),
    "BEGIN" := Token(Begin, Some("BEGIN")),
    "END" := Token(End, Some("END"))
  ]

  /** `number`: a maximal digit run; if a `.` follows, the dot and a second
      (possibly empty) maximal digit run make a real literal. Returns the
      token and the position after it. */
  function ScanNumber(text: string, pos: nat): (r: (Token, nat))
    requires pos <= |text|
    ensures pos <= r.1 <= |text|
    ensures r.0.value == Some(text[pos..r.1])
  {
    var e := RunEnd(text, pos, IsDigit);
    if CharAt(text, e) != Some('.') then
      (Token(IntegerConst, Some(text[pos..e])), e)
    else
      var f := RunEnd(text, e + 1, IsDigit);
      (Token(RealConst, Some(text[pos..f])), f)
  }

  /** `id`: a maximal run of letters and digits, looked up in the
      reserved-word table. */
  function ScanId(text: string, pos: nat): (r: (Token, nat))
    requires pos <= |text|
    ensures pos <= r.1 <= |text|
    ensures r.0.value == Some(text[pos..r.1])
  {
    var e := RunEnd(text, pos, IsAlnum);
    var word := text[pos..e];
    if word in ReservedKeywords then (ReservedKeywords[word], e)
    else (Token(Id, Some(word)), e)
  }

  /** The position just after the first `}` at or after `pos`, if any. */
  function CommentEnd(text: string, pos: nat): (r: Option<nat>)
    requires pos <= |text|
    ensures r.Some? ==> pos < r.value <= |text| && text[r.value - 1] == '}'
    ensures r.Some? ==> forall k | pos <= k < r.value - 1 :: text[k] != '}'
    ensures r.None? ==> forall k | pos <= k < |text| :: text[k] != '}'
  {
    var e := RunEnd(text, pos, InComment);
    if e < |text| then Some(e + 1) else None
  }

  /** The token `t`, ending at `end`, was read at or after `pos`: its text is
      non-empty and is exactly the last characters before `end`. */
  predicate Consumed(text: string, pos: nat, t: Token, end: nat) {
    && t.value.Some?
    && 0 < |t.value.value|
    && pos + |t.value.value| <= end <= |text|
    && text[end - |t.value.value|..end] == t.value.value
  }

  /** `getNextToken` from cursor `pos`: the next token and the cursor after
      it. Whitespace and comments are skipped; at the end of the text the
      result is the EOF token. */
  function NextToken(text: string, pos: nat): (r: Result<(Token, nat), LexError>)
    requires pos <= |text|
    ensures r.Success? ==> pos <= r.value.1 <= |text|
    ensures r.Success? ==> r.value.0.kind != FloatDiv
    ensures r.Success? && r.value.0.kind == Eof ==> r.value == (EofToken, |text|)
    ensures r.Success? && r.value.0.kind != Eof ==> Consumed(text, pos, r.value.0, r.value.1)
    decreases |text| - pos
  {
    if pos == |text| then Success((EofToken, pos))
    else
      var c := text[pos];
      if IsSpace(c) then NextToken(text, RunEnd(text, pos, IsSpace))
      else if IsDigit(c) then Success(ScanNumber(text, pos))
      else if c == '+' then Success((Token(Operator, Some("+")), pos + 1))
      else if c == '-' then Success((Token(Operator, Some("-")), pos + 1))
      else if c == '*' then Success((Token(Operator, Some("*")), pos + 1))
      else if c == '/' then Success((Token(Operator, Some("/")), pos + 1))
      else if c == '(' then Success((Token(OpenParen, Some("(")), pos + 1))
      else if c == ')' then Success((Token(CloseParen, Some(")")), pos + 1))
      else if IsLetter(c) then Success(ScanId(text, pos))
      else if c == ':' && CharAt(text, pos + 1) == Some('=') then
        Success((Token(TokenType.Assignment, Some(":=")), pos + 2))
      else if c == ';' then Success((Token(EndStatement, Some(";")), pos + 1))
      else if c == '.' then Success((Token(Dot, Some(".")), pos + 1))
      else if c == ':' then Success((Token(Colon, Some(":")), pos + 1))
      else if c == ',' then Success((Token(Comma, Some(",")), pos + 1))
      else if c == '{' then
        match CommentEnd(text, pos + 1)
        case Some(e) => NextToken(text, e)
        case None => Failure(UnterminatedComment)
      else Failure(UnknownToken(c, pos))
  }

  /** Whitespace under the cursor: the next token is the one after the run. */
  lemma WhitespaceStep(text: string, pos: nat)
    requires pos < |text| && IsSpace(text[pos])
    ensures pos < RunEnd(text, pos, IsSpace)
    ensures NextToken(text, pos) == NextToken(text, RunEnd(text, pos, IsSpace))
  {
  }

  /** `{` under the cursor: the next token is the one after the comment, or
      the comment is unterminated. */
  lemma CommentStep(text: string, pos: nat)
    requires pos < |text| && text[pos] == '{'
    ensures CommentEnd(text, pos + 1).Some? ==>
              NextToken(text, pos) == NextToken(text, CommentEnd(text, pos + 1).value)
    ensures CommentEnd(text, pos + 1).None? ==> NextToken(text, pos) == Failure(UnterminatedComment)
  {
  }

  /** `getTokens` from cursor `pos`: every token up to and including EOF. */
  function Tokenize(text: string, pos: nat): (r: Result<seq<Token>, LexError>)
    requires pos <= |text|
    ensures r.Success? ==> EofTerminated(r.value) && r.value[|r.value| - 1] == EofToken
    decreases |text| - pos
  {
    var p :- NextToken(text, pos);
    if p.0.kind == Eof then Success([p.0])
    else Prepend([p.0], Tokenize(text, p.1))
  }

  /** The whole text lexed from its first character. */
  function Lex(text: string): (r: Result<seq<Token>, LexError>)
    ensures r.Success? ==> EofTerminated(r.value) && r.value[|r.value| - 1] == EofToken
  {
    Tokenize(text, 0)
  }

  /** One step of `Tokenize`: the next token, then the rest. */
  lemma TokenizeStep(text: string, pos: nat)
    requires pos <= |text|
    ensures match NextToken(text, pos)
      case Failure(e) => Tokenize(text, pos) == Failure(e)
      case Success((t, next)) =>
        if t.kind == Eof then Tokenize(text, pos) == Success([t])
        else Tokenize(text, pos) == Prepend([t], Tokenize(text, next))
  {
  }

  lemma PrependPrepend<T, E>(a: seq<T>, b: seq<T>, r: Result<seq<T>, E>)
    ensures Prepend(a, Prepend(b, r)) == Prepend(a + b, r)
  {
    if r.Success? {
      assert a + (b + r.value) == (a + b) + r.value;
    }
  }

  // ---------------------------------------------------------------------
  // Properties of the lexer

  predicate IsDigits(d: string) {
    forall k | 0 <= k < |d| :: IsDigit(d[k])
  }

  /** An identifier: a letter, then letters and digits. */
  predicate IsWord(w: string) {
    0 < |w| && IsLetter(w[0]) && forall k | 0 <= k < |w| :: IsAlnum(w[k])
  }

  /** The run of characters satisfying `p` at `pos` is exactly `s`. */
  lemma RunAt(text: string, pos: nat, s: string, p: char -> bool)
    requires At(text, pos, s)
    requires forall k | 0 <= k < |s| :: p(s[k])
    requires pos + |s| < |text| ==> !p(text[pos + |s|])
    ensures RunEnd(text, pos, p) == pos + |s|
    ensures text[pos..pos + |s|] == s
  {
    forall k | pos <= k < pos + |s| ensures p(text[k]) {
      AtIndex(text, pos, s, k - pos);
    }
    RunEndUnique(text, pos, pos + |s|, p);
  }

  /** A maximal digit run not followed by `.` is one integer literal holding
      exactly those digits. */
  lemma IntegerLiteral(text: string, pos: nat, d: string)
    requires At(text, pos, d) && 0 < |d| && IsDigits(d)
    requires pos + |d| < |text| ==> !IsDigit(text[pos + |d|]) && text[pos + |d|] != '.'
    ensures NextToken(text, pos) == Success((Token(IntegerConst, Some(d)), pos + |d|))
  {
    RunAt(text, pos, d, IsDigit);
    AtIndex(text, pos, d, 0);
  }

  /** Digits, a dot and a (possibly empty) digit run form one real literal,
      so `3.` is accepted as a real. */
  lemma RealLiteral(text: string, pos: nat, d: string, f: string)
    requires At(text, pos, d + "." + f) && 0 < |d| && IsDigits(d) && IsDigits(f)
    requires pos + |d| + 1 + |f| < |text| ==> !IsDigit(text[pos + |d| + 1 + |f|])
    ensures NextToken(text, pos) ==
            Success((Token(RealConst, Some(d + "." + f)), pos + |d| + 1 + |f|))
  {
    var dot, end := pos + |d|, pos + |d| + 1 + |f|;
    RealRuns(text, pos, d, f);
    DigitStartsNumber(text, pos);
    ScanReal(text, pos, dot, end);
  }

  /** The digit runs and the dot of a real literal, where `RunEnd` finds
      them. */
  lemma RealRuns(text: string, pos: nat, d: string, f: string)
    requires At(text, pos, d + "." + f) && 0 < |d| && IsDigits(d) && IsDigits(f)
    requires pos + |d| + 1 + |f| < |text| ==> !IsDigit(text[pos + |d| + 1 + |f|])
    ensures pos + |d| < |text| && text[pos + |d|] == '.' && IsDigit(text[pos])
    ensures RunEnd(text, pos, IsDigit) == pos + |d|
    ensures RunEnd(text, pos + |d| + 1, IsDigit) == pos + |d| + 1 + |f|
    ensures text[pos..pos + |d| + 1 + |f|] == d + "." + f
  {
    AtSeparated(text, pos, d, '.', f);
    RunAt(text, pos, d, IsDigit);
    RunAt(text, pos + |d| + 1, f, IsDigit);
    AtIndex(text, pos, d, 0);
  }

  /** A digit run ending at `dot`, a `.` there and a digit run ending at
      `end` are scanned as one real literal. */
  lemma ScanReal(text: string, pos: nat, dot: nat, end: nat)
    requires pos <= dot < end <= |text| && text[dot] == '.'
    requires RunEnd(text, pos, IsDigit) == dot && RunEnd(text, dot + 1, IsDigit) == end
    ensures ScanNumber(text, pos) == (Token(RealConst, Some(text[pos..end])), end)
  {
  }

  lemma DigitStartsNumber(text: string, pos: nat)
    requires pos < |text| && IsDigit(text[pos])
    ensures NextToken(text, pos) == Success(ScanNumber(text, pos))
  {
  }

  /** A letter followed by letters and digits, up to the first other
      character, is one word; a word in the reserved-word table (matched
      exactly, so case-sensitively) is that keyword's token, any other word
      an identifier holding the word verbatim. */
  lemma Word(text: string, pos: nat, w: string)
    requires At(text, pos, w) && IsWord(w)
    requires pos + |w| < |text| ==> !IsAlnum(text[pos + |w|])
    ensures NextToken(text, pos) == Success((
      if w in ReservedKeywords then ReservedKeywords[w] else Token(Id, Some(w)),
      pos + |w|))
  {
    RunAt(text, pos, w, IsAlnum);
    AtIndex(text, pos, w, 0);
  }

  /** Reserved words are upper case only: `begin` is an identifier. */
  lemma LowerCaseKeywordIsId(text: string, pos: nat)
    requires At(text, pos, "begin")
    requires pos + 5 < |text| ==> !IsAlnum(text[pos + 5])
    ensures NextToken(text, pos) == Success((Token(Id, Some("begin")), pos + 5))
  {
    Word(text, pos, "begin");
  }

  /** `:` followed by `=` is one assignment token two characters long; any
      other `:` is a colon. */
  lemma ColonOrAssignment(text: string, pos: nat)
    requires pos < |text| && text[pos] == ':'
    ensures NextToken(text, pos) ==
      if pos + 1 < |text| && text[pos + 1] == '='
      then Success((Token(TokenType.Assignment, Some(":=")), pos + 2))
      else Success((Token(Colon, Some(":")), pos + 1))
  {
  }

  /** `/` is always an operator token; the lexer never yields FLOAT_DIV. */
  lemma SlashIsOperator(text: string, pos: nat)
    requires pos < |text| && text[pos] == '/'
    ensures NextToken(text, pos) == Success((Token(Operator, Some("/")), pos + 1))
  {
  }

  /** Whitespace yields no token: the lexer goes on after the run. */
  lemma SkipsWhitespace(text: string, pos: nat, end: nat)
    requires pos < end <= |text|
    requires forall k | pos <= k < end :: IsSpace(text[k])
    requires end < |text| ==> !IsSpace(text[end])
    ensures NextToken(text, pos) == NextToken(text, end)
  {
    RunEndUnique(text, pos, end, IsSpace);
  }

  /** A comment yields no token and ends at its first `}`: comments do not
      nest. */
  lemma SkipsComment(text: string, pos: nat, close: nat)
    requires pos < close < |text| && text[pos] == '{' && text[close] == '}'
    requires forall k | pos < k < close :: text[k] != '}'
    ensures NextToken(text, pos) == NextToken(text, close + 1)
  {
    RunEndUnique(text, pos + 1, close, InComment);
  }

  /** A comment with no `}` after it is an error. */
  lemma UnterminatedCommentFails(text: string, pos: nat)
    requires pos < |text| && text[pos] == '{'
    requires forall k | pos < k < |text| :: text[k] != '}'
    ensures NextToken(text, pos) == Failure(UnterminatedComment)
  {
    RunEndUnique(text, pos + 1, |text|, InComment);
  }

  /** Characters that start a token or are skipped. */
  predicate Recognised(c: char) {
    IsSpace(c) || IsAlnum(c) || c in "+-*/():;.,{"
  }

  /** Any other character, such as `#` or `_`, is an unknown token. */
  lemma UnknownCharacter(text: string, pos: nat)
    requires pos < |text| && !Recognised(text[pos])
    ensures NextToken(text, pos) == Failure(UnknownToken(text[pos], pos))
  {
  }

  /** At the end of the text the lexer returns EOF, with no value, and stays
      there: asking again gives EOF again. */
  lemma EofIsIdempotent(text: string, pos: nat)
    requires pos <= |text|
    requires NextToken(text, pos).Success? && NextToken(text, pos).value.0.kind == Eof
    ensures NextToken(text, pos).value.0.value == None
    ensures NextToken(text, NextToken(text, pos).value.1) == NextToken(text, pos)
  {
  }
}
