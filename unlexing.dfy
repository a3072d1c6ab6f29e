/** Printing a token list back as source text, and the proof that the lexer
    reads exactly those tokens back from it. This is the partner of
    `Scanning.Tokenize`: every token the lexer can produce, apart from EOF,
    has a spelling, and lexing the spellings separated by single spaces
    gives the tokens again followed by EOF. */
module Unlexing {
  import opened Wrappers
  import opened Text
  import opened Tokens
  import opened Scanning

  /** A real literal: digits, a dot, and a possibly empty digit run. */
  predicate IsRealText(v: string) {
    var i := RunEnd(v, 0, IsDigit);
    0 < i < |v| && v[i] == '.' && IsDigits(v[i + 1..])
  }

  /** Tokens the lexer can produce from their own text: the value is the
      exact lexeme, and keywords and identifiers are told apart by the
      reserved-word table. */
  predicate Lexical(t: Token) {
    t.value.Some? &&
    var v := t.value.value;
    match t.kind
    case Id => IsWord(v) && v !in ReservedKeywords
    case IntegerConst => 0 < |v| && IsDigits(v)
    case RealConst => IsRealText(v)
    case Operator => v == "+" || v == "-" || v == "*" || v == "/"
    case Program | Var | IntegerDiv | Integer | Real | Begin | End =>
      v in ReservedKeywords && ReservedKeywords[v] == t
    case OpenParen => v == "("
    case CloseParen => v == ")"
    case Assignment => v == ":="
    case EndStatement => v == ";"
    case Dot => v == "."
    case Colon => v == ":"
    case Comma => v == ","
    case FloatDiv | Eof => false
  }

  predicate AllLexical(ts: seq<Token>) {
    forall i | 0 <= i < |ts| :: Lexical(ts[i])
  }

  /** The text a lexical token is read from. */
  function Lexeme(t: Token): string
    requires Lexical(t)
  {
    t.value.value
  }

  /** The lexemes of `ts`, separated by single spaces. */
  function Unlex(ts: seq<Token>): (s: string)
    requires AllLexical(ts)
    ensures ts == [] <==> s == []
  {
    if ts == [] then ""
    else if |ts| == 1 then Lexeme(ts[0])
    else Lexeme(ts[0]) + " " + Unlex(ts[1..])
  }

  lemma ReservedAreWords(w: string)
    requires w in ReservedKeywords
    ensures IsWord(w)
  {
  }

  /** A lexeme is never empty and never starts with whitespace. */
  lemma LexemeStart(t: Token)
    requires Lexical(t)
    ensures 0 < |Lexeme(t)| && !IsSpace(Lexeme(t)[0])
  {
    var v := Lexeme(t);
    if t.kind.Program? || t.kind.Var? || t.kind.IntegerDiv? || t.kind.Integer?
       || t.kind.Real? || t.kind.Begin? || t.kind.End? {
      ReservedAreWords(v);
    } else if t.kind.RealConst? {
      assert IsDigit(v[0]);
    }
  }

  predicate IsWordKind(k: TokenType) {
    k.Id? || k.Program? || k.Var? || k.IntegerDiv? || k.Integer? || k.Real? || k.Begin? || k.End?
  }

  lemma LexWord(text: string, pos: nat, t: Token)
    requires Lexical(t) && IsWordKind(t.kind) && At(text, pos, Lexeme(t))
    requires pos + |Lexeme(t)| < |text| ==> text[pos + |Lexeme(t)|] == ' '
    ensures NextToken(text, pos) == Success((t, pos + |Lexeme(t)|))
  {
    if !t.kind.Id? {
      ReservedAreWords(Lexeme(t));
    }
    Word(text, pos, Lexeme(t));
  }

  lemma LexNumber(text: string, pos: nat, t: Token)
    requires Lexical(t) && (t.kind.IntegerConst? || t.kind.RealConst?)
    requires At(text, pos, Lexeme(t))
    requires pos + |Lexeme(t)| < |text| ==> text[pos + |Lexeme(t)|] == ' '
    ensures NextToken(text, pos) == Success((t, pos + |Lexeme(t)|))
  {
    var v := Lexeme(t);
    if t.kind.IntegerConst? {
      IntegerLiteral(text, pos, v);
    } else {
      var i := RunEnd(v, 0, IsDigit);
      assert v == v[..i] + "." + v[i + 1..];
      RealLiteral(text, pos, v[..i], v[i + 1..]);
    }
  }

  lemma LexSymbol(text: string, pos: nat, t: Token)
    requires Lexical(t) && !IsWordKind(t.kind) && !t.kind.IntegerConst? && !t.kind.RealConst?
    requires At(text, pos, Lexeme(t))
    requires pos + |Lexeme(t)| < |text| ==> text[pos + |Lexeme(t)|] == ' '
    ensures NextToken(text, pos) == Success((t, pos + |Lexeme(t)|))
  {
    AtIndex(text, pos, Lexeme(t), 0);
    if t.kind.Assignment? {
      AtIndex(text, pos, Lexeme(t), 1);
    }
  }

  /** A lexeme followed by a space or the end of the text is read back as
      its own token. */
  lemma LexOne(text: string, pos: nat, t: Token)
    requires Lexical(t) && At(text, pos, Lexeme(t))
    requires pos + |Lexeme(t)| < |text| ==> text[pos + |Lexeme(t)|] == ' '
    ensures NextToken(text, pos) == Success((t, pos + |Lexeme(t)|))
  {
    if IsWordKind(t.kind) {
      LexWord(text, pos, t);
    } else if t.kind.IntegerConst? || t.kind.RealConst? {
      LexNumber(text, pos, t);
    } else {
      LexSymbol(text, pos, t);
    }
  }

  /** A single space before a token is skipped. */
  lemma SpaceBeforeToken(text: string, pos: nat)
    requires pos + 1 < |text| && text[pos] == ' ' && !IsSpace(text[pos + 1])
    ensures Tokenize(text, pos) == Tokenize(text, pos + 1)
  {
    SkipsWhitespace(text, pos, pos + 1);
    TokenizeStep(text, pos);
    TokenizeStep(text, pos + 1);
  }

  lemma TokenizeAtEnd(text: string)
    ensures Tokenize(text, |text|) == Success([EofToken])
  {
    TokenizeStep(text, |text|);
  }

  lemma TokenizeCons(text: string, pos: nat, t: Token, next: nat, rest: seq<Token>)
    requires pos <= next <= |text| && t.kind != Eof
    requires NextToken(text, pos) == Success((t, next))
    requires Tokenize(text, next) == Success(rest)
    ensures Tokenize(text, pos) == Success([t] + rest)
  {
    TokenizeStep(text, pos);
  }

  /** The last lexeme of the text is read, then EOF. */
  lemma TokenizeLast(text: string, pos: nat, t: Token)
    requires Lexical(t) && At(text, pos, Lexeme(t)) && pos + |Lexeme(t)| == |text|
    ensures Tokenize(text, pos) == Success([t, EofToken])
  {
    var next := pos + |Lexeme(t)|;
    LexOne(text, pos, t);
    assert t.kind != Eof;
    TokenizeAtEnd(text);
    assert Tokenize(text, next) == Success([EofToken]);
    TokenizeCons(text, pos, t, next, [EofToken]);
    assert [t] + [EofToken] == [t, EofToken];
  }

  /** A lexeme followed by a space is read, then whatever the text after
      the space gives. */
  lemma TokenizeFirst(text: string, pos: nat, t: Token, rest: seq<Token>)
    requires Lexical(t) && At(text, pos, Lexeme(t))
    requires pos + |Lexeme(t)| + 1 < |text| && text[pos + |Lexeme(t)|] == ' '
    requires !IsSpace(text[pos + |Lexeme(t)| + 1])
    requires Tokenize(text, pos + |Lexeme(t)| + 1) == Success(rest)
    ensures Tokenize(text, pos) == Success([t] + rest)
  {
    var next := pos + |Lexeme(t)|;
    LexOne(text, pos, t);
    assert t.kind != Eof;
    SpaceBeforeToken(text, next);
    TokenizeCons(text, pos, t, next, rest);
  }

  /** `ts` is printed in `text` from `pos` to the end: each lexeme in turn,
      separated by single spaces. */
  predicate PrintedAt(text: string, pos: nat, ts: seq<Token>)
    decreases ts
  {
    if ts == [] then pos == |text|
    else
      && Lexical(ts[0])
      && At(text, pos, Lexeme(ts[0]))
      && var e := pos + |Lexeme(ts[0])|;
         if |ts| == 1 then e == |text|
         else e < |text| && text[e] == ' ' && PrintedAt(text, e + 1, ts[1..])
  }

  lemma {:induction false} UnlexPrinted(text: string, pos: nat, ts: seq<Token>)
    requires AllLexical(ts)
    requires At(text, pos, Unlex(ts)) && pos + |Unlex(ts)| == |text|
    ensures PrintedAt(text, pos, ts)
    decreases ts
  {
    if |ts| == 1 {
      assert Unlex(ts) == Lexeme(ts[0]);
    } else if ts != [] {
      UnlexSplit(text, pos, ts);
      UnlexPrinted(text, pos + |Lexeme(ts[0])| + 1, ts[1..]);
    }
  }

  /** The first lexeme of a printed list of two or more, its space, and the
      rest of the print. */
  lemma UnlexSplit(text: string, pos: nat, ts: seq<Token>)
    requires AllLexical(ts) && 1 < |ts|
    requires At(text, pos, Unlex(ts))
    ensures At(text, pos, Lexeme(ts[0]))
    ensures pos + |Lexeme(ts[0])| < |text| && text[pos + |Lexeme(ts[0])|] == ' '
    ensures At(text, pos + |Lexeme(ts[0])| + 1, Unlex(ts[1..]))
    ensures |Unlex(ts)| == |Lexeme(ts[0])| + 1 + |Unlex(ts[1..])|
  {
    var v, u := Lexeme(ts[0]), Unlex(ts[1..]);
    assert Unlex(ts) == v + [' '] + u;
    AtSeparated(text, pos, v, ' ', u);
  }

  /** Lexing the printed tokens from `pos` gives the tokens back, then EOF. */
  lemma {:induction false} TokenizePrinted(text: string, pos: nat, ts: seq<Token>)
    requires PrintedAt(text, pos, ts)
    ensures Tokenize(text, pos) == Success(ts + [EofToken])
    decreases ts
  {
    if ts == [] {
      TokenizeAtEnd(text);
      assert ts + [EofToken] == [EofToken];
    } else if |ts| == 1 {
      TokenizeLast(text, pos, ts[0]);
      assert [ts[0], EofToken] == ts + [EofToken];
    } else {
      TokenizePrinted(text, pos + |Lexeme(ts[0])| + 1, ts[1..]);
      TokenizeNext(text, pos, ts);
    }
  }

  /** One step of `TokenizePrinted`: the first of two or more printed
      tokens, in front of what the rest gives. */
  lemma TokenizeNext(text: string, pos: nat, ts: seq<Token>)
    requires PrintedAt(text, pos, ts) && 1 < |ts|
    requires Tokenize(text, pos + |Lexeme(ts[0])| + 1) == Success(ts[1..] + [EofToken])
    ensures Tokenize(text, pos) == Success(ts + [EofToken])
  {
    PrintedSplit(text, pos, ts);
    TokenizeFirst(text, pos, ts[0], ts[1..] + [EofToken]);
    assert [ts[0]] + (ts[1..] + [EofToken]) == ts + [EofToken];
  }

  /** What `PrintedAt` says of two or more tokens: the first lexeme, a
      space, and a next lexeme that does not start with whitespace. */
  lemma PrintedSplit(text: string, pos: nat, ts: seq<Token>)
    requires PrintedAt(text, pos, ts) && 1 < |ts|
    ensures Lexical(ts[0]) && At(text, pos, Lexeme(ts[0]))
    ensures pos + |Lexeme(ts[0])| + 1 < |text| && text[pos + |Lexeme(ts[0])|] == ' '
    ensures !IsSpace(text[pos + |Lexeme(ts[0])| + 1])
  {
    var next := pos + |Lexeme(ts[0])| + 1;
    assert PrintedAt(text, next, ts[1..]);
    assert Lexical(ts[1]) && At(text, next, Lexeme(ts[1]));
    LexemeStart(ts[1]);
    AtIndex(text, next, Lexeme(ts[1]), 0);
  }

  /** Lexing printed tokens gives them back followed by EOF. */
  lemma LexUnlex(ts: seq<Token>)
    requires AllLexical(ts)
    ensures Lex(Unlex(ts)) == Success(ts + [EofToken])
  {
    assert Unlex(ts)[0..|Unlex(ts)|] == Unlex(ts);
    UnlexPrinted(Unlex(ts), 0, ts);
    TokenizePrinted(Unlex(ts), 0, ts);
  }
}
