/** The token record of Lexer/Token.php and the token types of the
    `TokenType` constants it is built from. */
module Tokens {
  import opened Wrappers
  import opened Text

  /** The closed set of token types. TokenType.php is not part of this
      model; every type is named after the constant the source uses. */
  datatype TokenType =
    | Program | Var | IntegerDiv | Integer | Real | Begin | End
    | Id | IntegerConst | RealConst | Operator | OpenParen | CloseParen
    | Assignment | EndStatement | Dot | Colon | FloatDiv | Comma | Eof

  /** A token: its type and its optional text (null in the source). The
      source's `type` field is called `kind` here. */
  datatype Token = Token(kind: TokenType, value: Option<string>)

  /** The end-of-input token, the only token built without a value. */
  const EofToken := Token(Eof, None)

  /** A token list as the lexer returns it and the parser requires it:
      non-empty, ending in an EOF token, with no EOF token before the end. */
  predicate EofTerminated(ts: seq<Token>) {
    && 0 < |ts|
    && ts[|ts| - 1].kind == Eof
    && forall i | 0 <= i < |ts| - 1 :: ts[i].kind != Eof
  }

  /** The printed name of a token type. */
  function TypeName(t: TokenType): string {
    match t
    case Program => "PROGRAM"
    case Var => "VAR"
    case IntegerDiv => "INTEGER_DIV"
    case Integer => "INTEGER"
    case Real => "REAL"
    case Begin => "BEGIN"
    case End => "END"
    case Id => "ID"
    case IntegerConst => "INTEGER_CONST"
    case RealConst => "REAL_CONST"
    case Operator => "OPERATOR"
    case OpenParen => "OPEN_PAREN"
    case CloseParen => "CLOSE_PAREN"
    case Assignment => "ASSIGNMENT"
    case EndStatement => "END_STATEMENT"
    case Dot => "DOT"
    case Colon => "COLON"
    case FloatDiv => "FLOAT_DIV"
    case Comma => "COMMA"
    case Eof => "EOF"
  }

  /** The text printed for a value: a null value prints as "". */
  function ValueText(v: Option<string>): string {
    v.GetOr("")
  }

  /** `Token::__toString`: `Token(<type>, <value>)`. */
  function ToString(t: Token): string {
    "Token(" + TypeName(t.kind) + ", " + ValueText(t.value) + ")"
  }

  /** Characters of a printed type name. */
  predicate IsNameChar(c: char) {
    'A' <= c <= 'Z' || c == '_'
  }

  /** The token type a printed name stands for. */
  function TypeFromName(name: string): Option<TokenType> {
    match name
    case "PROGRAM" => Some(Program)
    case "VAR" => Some(Var)
    case "INTEGER_DIV" => Some(IntegerDiv)
    case "INTEGER" => Some(Integer)
    case "REAL" => Some(Real)
    case "BEGIN" => Some(Begin)
    case "END" => Some(End)
    case "ID" => Some(Id)
    case "INTEGER_CONST" => Some(IntegerConst)
    case "REAL_CONST" => Some(RealConst)
    case "OPERATOR" => Some(Operator)
    case "OPEN_PAREN" => Some(OpenParen)
    case "CLOSE_PAREN" => Some(CloseParen)
    case "ASSIGNMENT" => Some(Assignment)
    case "END_STATEMENT" => Some(EndStatement)
    case "DOT" => Some(Dot)
    case "COLON" => Some(Colon)
    case "FLOAT_DIV" => Some(FloatDiv)
    case "COMMA" => Some(Comma)
    case "EOF" => Some(Eof)
    case _ => None
  }

  /** Reads back the type and the value text from a printed token. */
  function Decode(s: string): Option<(TokenType, string)> {
    if 8 <= |s| && s[..6] == "Token(" && s[|s| - 1] == ')' then
      var i := RunEnd(s, 6, IsNameChar);
      if i + 2 <= |s| - 1 && s[i..i + 2] == ", " then
        match TypeFromName(s[6..i])
        case Some(t) => Some((t, s[i + 2..|s| - 1]))
        case None => None
      else None
    else None
  }

  /** A printed type name is a non-empty run of name characters, and reads
      back as the same type. */
  lemma TypeNameIsName(t: TokenType)
    ensures 0 < |TypeName(t)|
    ensures forall k | 0 <= k < |TypeName(t)| :: IsNameChar(TypeName(t)[k])
    ensures TypeFromName(TypeName(t)) == Some(t)
  {
    TypeNameChars(t);
    TypeNameReadsBack(t);
  }

  lemma TypeNameChars(t: TokenType)
    ensures 0 < |TypeName(t)|
    ensures forall k | 0 <= k < |TypeName(t)| :: IsNameChar(TypeName(t)[k])
  {
  }

  lemma TypeNameReadsBack(t: TokenType)
    ensures TypeFromName(TypeName(t)) == Some(t)
  {
  }

  /** A printed token can be read back: its type and its value text (with
      null printed as ""), both exactly. */
  lemma DecodeToString(t: Token)
    ensures Decode(ToString(t)) == Some((t.kind, ValueText(t.value)))
  {
    TypeNameIsName(t.kind);
    PrintedParts(TypeName(t.kind), ValueText(t.value));
  }

  /** Where `Decode` finds the parts of a printed token whose type name is
      `name` and whose value text is `v`. */
  lemma PrintedParts(name: string, v: string)
    requires 0 < |name| && forall k | 0 <= k < |name| :: IsNameChar(name[k])
    ensures var s, i := "Token(" + name + ", " + v + ")", 6 + |name|;
      && 8 <= |s| && s[..6] == "Token(" && s[|s| - 1] == ')'
      && RunEnd(s, 6, IsNameChar) == i
      && s[6..i] == name && s[i..i + 2] == ", " && s[i + 2..|s| - 1] == v
  {
    var s, i := "Token(" + name + ", " + v + ")", 6 + |name|;
    forall k | 6 <= k < i
      ensures IsNameChar(s[k])
    {
      assert s[k] == name[k - 6];
    }
    assert s[i] == ',';
    RunEndUnique(s, 6, i, IsNameChar);
    assert s[..6] == "Token(";
    assert s[6..i] == name;
    assert s[i..i + 2] == ", ";
    assert s[i + 2..|s| - 1] == v;
  }

  /** Two tokens print alike exactly when they have the same type and the
      same value text, so a null value and "" are the only pair confused. */
  lemma ToStringInjective(a: Token, b: Token)
    ensures ToString(a) == ToString(b) <==>
            a.kind == b.kind && ValueText(a.value) == ValueText(b.value)
  {
    if ToString(a) == ToString(b) {
      DecodeToString(a);
      DecodeToString(b);
    }
  }
}
