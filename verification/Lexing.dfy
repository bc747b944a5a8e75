/** What the lexer does, as a function of the text that is left. */
module Lexing {
  import opened Ast
  import opened Characters
  import opened Tokens

  /** A character of the text; behind its end stands a null character. */
  function At(s: string, i: nat): char {
    if i < |s| then s[i] else '\0'
  }

  function Drop(s: string, n: nat): (rest: string)
    ensures |rest| <= |s| && (n > 0 && s != [] ==> |rest| < |s|)
  {
    if n <= |s| then s[n..] else []
  }

  function SkipSpaces(s: string): (rest: string)
    ensures |rest| <= |s| && (rest == [] || !IsSpace(rest[0]))
  {
    if s != [] && IsSpace(s[0]) then SkipSpaces(s[1..]) else s
  }

  /** How long the identifier or keyword at the start of the text is. */
  function WordLength(s: string): (n: nat)
    ensures n <= |s| && forall i | 0 <= i < n :: IsAlnum(s[i])
  {
    if s != [] && IsAlnum(s[0]) then 1 + WordLength(s[1..]) else 0
  }

  function NumeralLength(s: string): (n: nat)
    ensures n <= |s| && AllDigits(s[..n])
  {
    if s != [] && IsDigit(s[0]) then 1 + NumeralLength(s[1..]) else 0
  }

  /** The text from the first of the two characters on. */
  function UpToEither(s: string, a: char, b: char): (rest: string)
    ensures |rest| <= |s|
    ensures rest == s[|s| - |rest|..]
    ensures rest != [] ==> rest[0] == a || rest[0] == b
  {
    if s == [] || s[0] == a || s[0] == b then s else UpToEither(s[1..], a, b)
  }

  /** A word ends where the letters and digits do. */
  lemma {:induction false} WordEnds(s: string, n: nat)
    requires n <= |s| && (forall i | 0 <= i < n :: IsAlnum(s[i])) && (n < |s| ==> !IsAlnum(s[n]))
    ensures WordLength(s) == n
  {
    if n > 0 {
      WordEnds(s[1..], n - 1);
    }
  }

  lemma {:induction false} NumeralEnds(s: string, n: nat)
    requires n <= |s| && AllDigits(s[..n]) && (n < |s| ==> !IsDigit(s[n]))
    ensures NumeralLength(s) == n
  {
    if n > 0 {
      assert s[..n][0] == s[0] && s[..n][1..] == s[1..][..n - 1];
      NumeralEnds(s[1..], n - 1);
    }
  }

  /** The search stops at the first of the two characters. */
  lemma {:induction false} SearchEnds(s: string, a: char, b: char, n: nat)
    requires n <= |s| && (forall i | 0 <= i < n :: s[i] != a && s[i] != b)
    requires n < |s| ==> s[n] == a || s[n] == b
    ensures UpToEither(s, a, b) == s[n..]
  {
    if n > 0 {
      assert s[1..][n - 1..] == s[n..];
      SearchEnds(s[1..], a, b, n - 1);
    }
  }

  function WordToken(word: string): Token {
    if word == "fn" then FUNCTION
    else if word == "print" then PRINT
    else if word == "scan" then SCAN
    else if word == "String" then TYPE(STRING)
    else if word == "var" then VAR
    else if word == "Void" then TYPE(VOID)
    else if word == "Int" then TYPE(Type.NUMBER)
    else if word == "Bool" then TYPE(BOOL)
    else if word == "True" then TRUE
    else if word == "False" then FALSE
    else if word == "if" then IF
    else if word == "while" then WHILE
    else if word == "spawn" then SPAWN
    else if word == "sleep" then SLEEP
    else if word == "sync" then SYNC
    else if word == "return" then RETURN
    else IDENTIFIER(word)
  }

  /** A word is a keyword or it names itself. */
  lemma WordIsKeywordOrName(word: string)
    ensures WordToken(word).IDENTIFIER? ==> WordToken(word).name == word
    ensures !WordToken(word).STRING_LITERAL? && !WordToken(word).NUMBER?
  {
  }

  /** An operator that is another one when its character is followed by `c`. */
  function OneOrTwo(s: string, c: char, two: Token, one: Token): (Token, string) {
    if At(s, 1) == c then (two, Drop(s, 2)) else (one, Drop(s, 1))
  }

  /** The rest of a comment up to its closing symbol; the star that opens it counts towards it. */
  function MultiLineComment(s: string, lastCharWasStar: bool): (r: (Token, string))
    ensures |r.1| <= |s|
  {
    if s == [] then (Token.UNKNOWN, [])
    else if lastCharWasStar && s[0] == '/' then (ML_COMMENT, s[1..])
    else MultiLineComment(s[1..], s[0] == '*')
  }

  /** A string, whose opening quote has been passed. */
  function StringToken(s: string): (r: (Token, string))
    ensures |r.1| <= |s|
  {
    var rest := UpToEither(s, '\n', '\"');
    if rest == [] then (Token.UNKNOWN, [])
    else if rest[0] == '\n' then (Token.UNKNOWN, Drop(UpToEither(rest, '\"', '\"'), 1))
    else (STRING_LITERAL(s[..|s| - |rest|]), rest[1..])
  }

  /** A number; a letter behind it spoils everything up to the next semicolon. */
  function NumberToken(s: string): (r: (Token, string))
    ensures |r.1| <= |s|
  {
    var n := NumeralLength(s);
    if IsAlpha(At(s, n)) then (Token.UNKNOWN, Drop(UpToEither(s[n..], ';', ';'), 1))
    else (Token.NUMBER(Value(s[..n])), s[n..])
  }

  /** The token at the start of the text, which is no space. A character outside the language is
      not passed. */
  function TokenAt(s: string): (r: (Token, string))
    requires s != []
    ensures |r.1| <= |s|
  {
    match s[0]
    case ',' => (COMMA, s[1..])
    case ':' => (COLON, s[1..])
    case ';' => (SEMI_COLON, s[1..])
    case '{' => (LEFT_BRACE, s[1..])
    case '[' => (LEFT_BRACKET, s[1..])
    case '(' => (LEFT_PAREN, s[1..])
    case '}' => (RIGHT_BRACE, s[1..])
    case ']' => (RIGHT_BRACKET, s[1..])
    case ')' => (RIGHT_PAREN, s[1..])
    case '=' => OneOrTwo(s, '=', OPERATOR(EQUAL), ASSIGN)
    case '+' => (OPERATOR(PLUS), s[1..])
    case '*' => (OPERATOR(MULT), s[1..])
    case '%' => (OPERATOR(MODULO), s[1..])
    case '!' => (OPERATOR(NOT), s[1..])
    case '-' => OneOrTwo(s, '>', ARROW, OPERATOR(MINUS))
    case '/' =>
      if At(s, 1) == '/' then (COMMENT, UpToEither(s[1..], '\n', '\n'))
      else if At(s, 1) == '*' then MultiLineComment(s[1..], false)
      else (OPERATOR(DIVIDE), s[1..])
    case '&' => OneOrTwo(s, '&', OPERATOR(AND_BOOL), OPERATOR(AND_INT))
    case '|' => OneOrTwo(s, '|', OPERATOR(OR_BOOL), OPERATOR(OR_INT))
    case '>' => OneOrTwo(s, '>', OPERATOR(RIGHT_SHIFT), OPERATOR(GREATER_THAN))
    case '<' => OneOrTwo(s, '<', OPERATOR(LEFT_SHIFT), OPERATOR(LESS_THAN))
    case '\"' => StringToken(s[1..])
    case c =>
      if IsAlpha(c) then (WordToken(s[..WordLength(s)]), s[WordLength(s)..])
      else if IsDigit(c) then NumberToken(s)
      else (Token.UNKNOWN, s)
  }

  function NextToken(s: string): (r: (Token, string))
    ensures |r.1| <= |s|
  {
    var t := SkipSpaces(s);
    if t == [] then (TOK_EOF, []) else TokenAt(t)
  }

  /** All the tokens of a text. A character that is not passed is the last thing seen. */
  function Lex(s: string): seq<Token>
    decreases |s|
  {
    var (token, rest) := NextToken(s);
    if token.TOK_EOF? then [] else if |rest| == |s| then [token] else [token] + Lex(rest)
  }
}
