/** The tokens of TosLang. The value the lexer keeps beside a token (its text, number or type)
    is part of the token here. */
module Tokens {
  import opened Ast

  datatype Token =
    // Keywords
    | FUNCTION | IF | PRINT | RETURN | SCAN | SPAWN | SLEEP | SYNC | TYPE(ty: Type) | VAR | WHILE
    // Boolean values
    | FALSE | TRUE
    // Operators
    | OPERATOR(op: Operation)
    // Misc
    | ARROW | COMMA | COMMENT | COLON | IDENTIFIER(name: string)
    | LEFT_BRACE | LEFT_BRACKET | LEFT_PAREN | ML_COMMENT | NUMBER(value: nat) | STRING_LITERAL(text: string)
    | SEMI_COLON | RIGHT_BRACE | RIGHT_BRACKET | RIGHT_PAREN
    | TOK_EOF
    | UNKNOWN

  /** The greatest number that the conversion of a numeral gives; it throws on others. */
  const MAX_INT := 2147483647

  const ASSIGN := OPERATOR(ASSIGNMENT)

  /** The current token: the first one left, or the end of the file. */
  function Cur(ts: seq<Token>): Token {
    if ts == [] then TOK_EOF else ts[0]
  }

  /** What is left after moving to the next token. */
  function Next(ts: seq<Token>): (rest: seq<Token>)
    ensures |rest| <= |ts| && (ts != [] ==> |rest| < |ts|)
  {
    if ts == [] then [] else ts[1..]
  }
}
