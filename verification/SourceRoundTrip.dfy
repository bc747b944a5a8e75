/** From the text of a program back to its tree, through the lexer and the parser. */
module SourceRoundTrip {
  import opened Ast
  import opened Tokens
  import opened Spelling
  import opened Lexing
  import opened Parsing
  import opened LexerRoundTrip
  import ParserRoundTrip

  /** Names are identifiers and no keywords, and strings fit between quotes on one line. */
  predicate IsWritable(n: ASTNode) {
    IsSource(n) && forall i | 0 <= i < |ProgramTokens(n)| :: Spellable(ProgramTokens(n)[i])
  }

  /** For every program that can be written down, and whatever white space separates its tokens:
      lexing and parsing its text gives the program with its operators nested to the right; so it
      gives the same program, locations apart, if and only if no binary left operand is binary. */
  lemma TextRoundTrip(n: ASTNode, gaps: seq<string>)
    requires IsWritable(n) && |gaps| == |ProgramTokens(n)| && forall i | 0 <= i < |gaps| :: IsGap(gaps[i])
    ensures ParseProgram(Lex(Written(ProgramTokens(n), gaps))) == Done(Reparsed(n), [])
    ensures ParseProgram(Lex(Written(ProgramTokens(n), gaps))) == Done(Erased(n), []) <==> LeftsAreSimple(n)
  {
    hide ParseProgram, Lex, Reparsed, Erased, ProgramTokens;
    WrittenIsRead(ProgramTokens(n), gaps);
    ParserRoundTrip.ProgramParses(n);
    ParserRoundTrip.RoundTripExactly(n);
  }
}
