/** The lexer and the parser together: a program printed as source text,
    one space between tokens, is read back as the same tree, and that
    tree renders. */
module Pipeline {
  import opened Wrappers
  import opened Tokens
  import opened Ast
  import opened Scanning
  import opened Grammar
  import opened Unlexing
  import opened ProgramFacts
  import opened PseudoCode

  /** Lexing the printed text of a program and parsing the tokens gives
      the program back. */
  lemma SourceRoundTrip(p: Node)
    requires WellFormedProgram(p) && AllLexical(ProgramTokens(p))
    ensures var r := Lex(Unlex(ProgramTokens(p)));
            && r == Success(ProgramTokens(p) + [EofToken])
            && EofTerminated(r.value)
            && Parse(r.value, 0) == Success(p)
            && Renderable(p)
  {
    LexUnlex(ProgramTokens(p));
    ProgramRoundTrip(p);
    ProgramRenders(p);
  }
}
