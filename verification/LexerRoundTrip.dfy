/** Lexing what tokens are written as gives the tokens back, whatever white space separates
    them. */
module LexerRoundTrip {
  import opened Ast
  import opened Characters
  import opened Tokens
  import opened Lexing

  // ---------- writing tokens ----------

  predicate IsName(s: string) {
    s != [] && IsAlpha(s[0]) && (forall i | 0 <= i < |s| :: IsAlnum(s[i])) && WordToken(s) == IDENTIFIER(s)
  }

  /** The tokens that are written by a fixed text, or by a name, a numeral or a quoted string. */
  predicate Spellable(t: Token) {
    match t
    case IDENTIFIER(name) => IsName(name)
    case STRING_LITERAL(text) => '\"' !in text && '\n' !in text
    case NUMBER(value) => value <= MAX_INT
    case TYPE(ty) => ty.BOOL? || ty.NUMBER? || ty.STRING? || ty.VOID?
    case OPERATOR(op) => !op.UNKNOWN_OP?
    case COMMENT => false
    case ML_COMMENT => false
    case TOK_EOF => false
    case UNKNOWN => false
    case _ => true
  }

  function OperatorText(op: Operation): string
    requires !op.UNKNOWN_OP?
  {
    match op
    case ASSIGNMENT => "="
    case AND_BOOL => "&&"
    case AND_INT => "&"
    case DIVIDE => "/"
    case EQUAL => "=="
    case GREATER_THAN => ">"
    case LEFT_SHIFT => "<<"
    case LESS_THAN => "<"
    case MINUS => "-"
    case MODULO => "%"
    case MULT => "*"
    case NOT => "!"
    case OR_BOOL => "||"
    case OR_INT => "|"
    case PLUS => "+"
    case RIGHT_SHIFT => ">>"
  }

  function KeywordText(t: Token): string {
    match t
    case FUNCTION => "fn"
    case IF => "if"
    case PRINT => "print"
    case RETURN => "return"
    case SCAN => "scan"
    case SPAWN => "spawn"
    case SLEEP => "sleep"
    case SYNC => "sync"
    case TYPE(ty) => if ty.BOOL? then "Bool" else if ty.NUMBER? then "Int" else if ty.STRING? then "String" else "Void"
    case VAR => "var"
    case WHILE => "while"
    case FALSE => "False"
    case TRUE => "True"
    case IDENTIFIER(name) => name
    case _ => ""
  }

  function SymbolText(t: Token): string {
    match t
    case ARROW => "->"
    case COMMA => ","
    case COLON => ":"
    case LEFT_BRACE => "{"
    case LEFT_BRACKET => "["
    case LEFT_PAREN => "("
    case SEMI_COLON => ";"
    case RIGHT_BRACE => "}"
    case RIGHT_BRACKET => "]"
    case RIGHT_PAREN => ")"
    case _ => ""
  }

  function Lexeme(t: Token): string
    requires Spellable(t)
  {
    if t.OPERATOR? then OperatorText(t.op)
    else if t.NUMBER? then Decimal(t.value)
    else if t.STRING_LITERAL? then "\"" + t.text + "\""
    else if SymbolText(t) != "" then SymbolText(t)
    else KeywordText(t)
  }

  /** White space, and at least some. */
  predicate IsGap(gap: string) {
    gap != [] && forall i | 0 <= i < |gap| :: IsSpace(gap[i])
  }

  /** The tokens, each followed by its gap. */
  function Written(ts: seq<Token>, gaps: seq<string>): string
    requires |ts| == |gaps| && forall i | 0 <= i < |ts| :: Spellable(ts[i])
  {
    if ts == [] then "" else Lexeme(ts[0]) + gaps[0] + Written(ts[1..], gaps[1..])
  }

  // ---------- reading one token ----------

  lemma OperatorIsRead(op: Operation, k: string)
    requires !op.UNKNOWN_OP? && (k == [] || IsSpace(k[0]))
    ensures OperatorText(op) + k != [] && TokenAt(OperatorText(op) + k) == (OPERATOR(op), k)
    ensures !IsSpace((OperatorText(op) + k)[0])
  {
    hide UpToEither, MultiLineComment, StringToken, NumberToken, WordLength;
    var s := OperatorText(op) + k;
    assert |OperatorText(op)| == 1 ==> s[1..] == k;
    assert |OperatorText(op)| == 2 ==> s[2..] == k;
  }

  lemma SymbolIsRead(t: Token, k: string)
    requires SymbolText(t) != ""
    ensures SymbolText(t) + k != [] && TokenAt(SymbolText(t) + k) == (t, k)
    ensures !IsSpace((SymbolText(t) + k)[0])
  {
    hide UpToEither, MultiLineComment, StringToken, NumberToken, WordLength;
    var s := SymbolText(t) + k;
    assert |SymbolText(t)| == 1 ==> s[1..] == k;
    assert |SymbolText(t)| == 2 ==> s[2..] == k;
  }

  lemma WordIsRead(word: string, k: string)
    requires word != [] && IsAlpha(word[0]) && (forall i | 0 <= i < |word| :: IsAlnum(word[i]))
    requires k == [] || IsSpace(k[0])
    ensures word + k != [] && TokenAt(word + k) == (WordToken(word), k) && !IsSpace((word + k)[0])
  {
    hide WordLength, WordToken, UpToEither, MultiLineComment, StringToken, NumberToken;
    WordEnds(word + k, |word|);
    assert (word + k)[..|word|] == word && (word + k)[|word|..] == k;
  }

  lemma NumberIsRead(n: nat, k: string)
    requires k == [] || IsSpace(k[0])
    ensures Decimal(n) + k != [] && TokenAt(Decimal(n) + k) == (Token.NUMBER(n), k) && !IsSpace((Decimal(n) + k)[0])
  {
    hide WordLength, NumeralLength, WordToken, UpToEither, MultiLineComment, StringToken, Decimal, Value;
    DecimalValue(n);
    var s := Decimal(n);
    assert (s + k)[..|s|] == s && (s + k)[|s|..] == k && IsDigit(s[0]);
    NumeralEnds(s + k, |s|);
  }

  lemma StringIsRead(text: string, k: string)
    requires '\"' !in text && '\n' !in text
    ensures var s := "\"" + text + "\"" + k; TokenAt(s) == (STRING_LITERAL(text), k) && !IsSpace(s[0])
  {
    hide WordLength, WordToken, UpToEither, MultiLineComment, NumberToken;
    var s, rest := "\"" + text + "\"" + k, text + ("\"" + k);
    assert s[1..] == rest;
    assert rest[|text|..] == "\"" + k;
    SearchEnds(rest, '\n', '\"', |text|);
    assert rest[..|rest| - |"\"" + k|] == text && ("\"" + k)[1..] == k;
  }

  lemma KeywordIsWord(t: Token)
    requires Spellable(t) && KeywordText(t) != ""
    ensures var word := KeywordText(t);
            IsAlpha(word[0]) && (forall i | 0 <= i < |word| :: IsAlnum(word[i])) && WordToken(word) == t
  {
  }

  lemma KeywordIsRead(t: Token, k: string)
    requires Spellable(t) && KeywordText(t) != "" && (k == [] || IsSpace(k[0]))
    ensures KeywordText(t) + k != [] && TokenAt(KeywordText(t) + k) == (t, k) && !IsSpace((KeywordText(t) + k)[0])
  {
    hide TokenAt;
    KeywordIsWord(t);
    hide WordToken, KeywordText, Spellable;
    WordIsRead(KeywordText(t), k);
  }

  /** A token followed by white space or the end of the text is read back, and reading stops
      right behind it. */
  lemma LexemeIsRead(t: Token, k: string)
    requires Spellable(t) && (k == [] || IsSpace(k[0]))
    ensures NextToken(Lexeme(t) + k) == (t, k) && Lexeme(t) != []
  {
    hide TokenAt, WordToken;
    if t.OPERATOR? {
      OperatorIsRead(t.op, k);
    } else if t.NUMBER? {
      NumberIsRead(t.value, k);
    } else if t.STRING_LITERAL? {
      StringIsRead(t.text, k);
    } else if SymbolText(t) != "" {
      SymbolIsRead(t, k);
    } else {
      KeywordIsRead(t, k);
    }
  }

  // ---------- reading them all ----------

  lemma {:induction false} SpacesAreSkipped(gap: string, k: string)
    requires forall i | 0 <= i < |gap| :: IsSpace(gap[i])
    ensures SkipSpaces(gap + k) == SkipSpaces(k)
    decreases |gap|
  {
    if gap == [] {
      assert gap + k == k;
    } else {
      assert (gap + k)[1..] == gap[1..] + k;
      SpacesAreSkipped(gap[1..], k);
    }
  }

  lemma SpacesDoNotMatter(gap: string, k: string)
    requires IsGap(gap)
    ensures Lex(gap + k) == Lex(k) || (Lex(k) != [] && Lex(k)[0].UNKNOWN?)
  {
    hide TokenAt, SkipSpaces;
    SpacesAreSkipped(gap, k);
    if SkipSpaces(k) != [] {
      TokenAdvances(SkipSpaces(k));
    }
  }

  /** Only an unknown character is not passed. */
  lemma TokenAdvances(s: string)
    requires s != []
    ensures |TokenAt(s).1| < |s| || TokenAt(s).0.UNKNOWN?
  {
    hide WordToken, UpToEither, MultiLineComment, Value;
  }

  /** Every sequence of spellable tokens is read back from its text, whatever white space
      separates them. */
  lemma {:induction false} WrittenIsRead(ts: seq<Token>, gaps: seq<string>)
    requires |ts| == |gaps| && (forall i | 0 <= i < |ts| :: Spellable(ts[i]) && IsGap(gaps[i]))
    ensures Lex(Written(ts, gaps)) == ts
    decreases |ts|
  {
    hide TokenAt, Lexeme, Spellable, SkipSpaces;
    if ts == [] {
      EmptyText();
    } else {
      var rest := Written(ts[1..], gaps[1..]);
      var text := Lexeme(ts[0]) + gaps[0] + rest;
      assert text == Lexeme(ts[0]) + (gaps[0] + rest);
      LexemeIsRead(ts[0], gaps[0] + rest);
      NotTheEnd(ts[0]);
      WrittenIsRead(ts[1..], gaps[1..]);
      GapThenTokens(gaps[0], rest, ts[1..]);
    }
  }

  lemma EmptyText()
    ensures Lex("") == []
  {
  }

  lemma NotTheEnd(t: Token)
    requires Spellable(t)
    ensures !t.TOK_EOF? && !t.UNKNOWN?
  {
  }

  lemma GapThenTokens(gap: string, k: string, ts: seq<Token>)
    requires IsGap(gap) && Lex(k) == ts && (forall i | 0 <= i < |ts| :: Spellable(ts[i]))
    ensures Lex(gap + k) == ts
  {
    SpacesDoNotMatter(gap, k);
    if ts != [] {
      NotTheEnd(ts[0]);
    }
  }
}
