/** The lexer: an iterator over the text of a program. */
module Lexer {
  import opened Ast
  import opened Characters
  import opened Tokens
  import L = Lexing

  class Lexer {
    const mBuffer: string
    var mBufferIt: nat
    var mCurrentStr: string
    var mCurrentNumber: nat

    ghost predicate Valid()
      reads this
    {
      mBufferIt <= |mBuffer|
    }

    /** The text that is left. */
    ghost function Rest(): string
      requires Valid()
      reads this
    {
      mBuffer[mBufferIt..]
    }

    constructor (text: string)
      ensures Valid() && Rest() == text
    {
      mBuffer := text;
      mBufferIt := 0;
      mCurrentStr, mCurrentNumber := "", 0;
      new;
      assert text[0..] == text;
    }

    /** The character the iterator points to. */
    function Current(): (c: char)
      requires Valid()
      reads this
      ensures c == L.At(Rest(), 0)
    {
      if mBufferIt < |mBuffer| then mBuffer[mBufferIt] else '\0'
    }

    /** Moves the iterator, which never leaves the buffer. */
    method Advance()
      requires Valid()
      modifies `mBufferIt
      ensures Valid() && Rest() == L.Drop(old(Rest()), 1)
      ensures old(mBufferIt) < |mBuffer| ==> mBufferIt == old(mBufferIt) + 1
    {
      if mBufferIt < |mBuffer| {
        mBufferIt := mBufferIt + 1;
      }
    }

    /** The next token. A name or string is left in `mCurrentStr`, a number in `mCurrentNumber`. */
    method GetNextToken() returns (token: Token)
      requires Valid()
      modifies this
      ensures Valid() && (token, Rest()) == L.NextToken(old(Rest()))
      ensures token.IDENTIFIER? ==> mCurrentStr == token.name
      ensures token.STRING_LITERAL? ==> mCurrentStr == token.text
      ensures token.NUMBER? ==> mCurrentNumber == token.value
    {
      hide L.TokenAt;
      while mBufferIt < |mBuffer| && IsSpace(mBuffer[mBufferIt])
        invariant Valid() && L.SkipSpaces(Rest()) == L.SkipSpaces(old(Rest()))
      {
        Advance();
      }
      if mBufferIt == |mBuffer| {
        return TOK_EOF;
      }
      token := ReadToken();
    }

    method ReadToken() returns (token: Token)
      requires Valid() && mBufferIt < |mBuffer|
      modifies this
      ensures Valid() && (token, Rest()) == L.TokenAt(old(Rest()))
      ensures token.IDENTIFIER? ==> mCurrentStr == token.name
      ensures token.STRING_LITERAL? ==> mCurrentStr == token.text
      ensures token.NUMBER? ==> mCurrentNumber == token.value
    {
      hide L.WordToken, L.NumberToken, L.StringToken, L.MultiLineComment, L.UpToEither, L.OneOrTwo, L.WordLength;
      var currentChar := mBuffer[mBufferIt];
      match currentChar {
        case ',' => Advance(); return COMMA;
        case ':' => Advance(); return COLON;
        case ';' => Advance(); return SEMI_COLON;
        case '{' => Advance(); return LEFT_BRACE;
        case '[' => Advance(); return LEFT_BRACKET;
        case '(' => Advance(); return LEFT_PAREN;
        case '}' => Advance(); return RIGHT_BRACE;
        case ']' => Advance(); return RIGHT_BRACKET;
        case ')' => Advance(); return RIGHT_PAREN;
        case '=' => token := OneOrTwo('=', OPERATOR(EQUAL), ASSIGN);
        case '+' => Advance(); return OPERATOR(PLUS);
        case '*' => Advance(); return OPERATOR(MULT);
        case '%' => Advance(); return OPERATOR(MODULO);
        case '!' => Advance(); return OPERATOR(NOT);
        case '-' => token := OneOrTwo('>', ARROW, OPERATOR(MINUS));
        case '/' => token := SlashOrComment();
        case '&' => token := OneOrTwo('&', OPERATOR(AND_BOOL), OPERATOR(AND_INT));
        case '|' => token := OneOrTwo('|', OPERATOR(OR_BOOL), OPERATOR(OR_INT));
        case '>' => token := OneOrTwo('>', OPERATOR(RIGHT_SHIFT), OPERATOR(GREATER_THAN));
        case '<' => token := OneOrTwo('<', OPERATOR(LEFT_SHIFT), OPERATOR(LESS_THAN));
        case '\"' => token := ReadString();
        case _ =>
          if IsAlpha(currentChar) {
            token := ReadWord();
          } else if IsDigit(currentChar) {
            token := ReadNumber();
          } else {
            return Token.UNKNOWN;
          }
      }
    }

    method OneOrTwo(c: char, two: Token, one: Token) returns (token: Token)
      requires Valid() && mBufferIt < |mBuffer|
      modifies `mBufferIt
      ensures Valid() && (token, Rest()) == L.OneOrTwo(old(Rest()), c, two, one)
      ensures token == two || token == one
    {
      Advance();
      if Current() == c {
        Advance();
        return two;
      }
      return one;
    }

    method SlashOrComment() returns (token: Token)
      requires Valid() && mBufferIt < |mBuffer| && mBuffer[mBufferIt] == '/'
      modifies `mBufferIt
      ensures Valid() && (token, Rest()) == L.TokenAt(old(Rest()))
      ensures token.COMMENT? || token.ML_COMMENT? || token.OPERATOR? || token.UNKNOWN?
    {
      hide L.UpToEither, L.MultiLineComment;
      Advance();
      if Current() == '/' {
        SkipTo('\n');
        return COMMENT;
      } else if Current() == '*' {
        token := SkipComment();
      } else {
        return OPERATOR(DIVIDE);
      }
    }

    /** Moves to the next `c`, or to the end. */
    method SkipTo(c: char)
      requires Valid()
      modifies `mBufferIt
      ensures Valid() && Rest() == L.UpToEither(old(Rest()), c, c)
    {
      while mBufferIt < |mBuffer| && mBuffer[mBufferIt] != c
        invariant Valid() && L.UpToEither(Rest(), c, c) == L.UpToEither(old(Rest()), c, c)
      {
        Advance();
      }
    }

    method SkipComment() returns (token: Token)
      requires Valid()
      modifies `mBufferIt
      ensures Valid() && (token, Rest()) == L.MultiLineComment(old(Rest()), false)
      ensures token.ML_COMMENT? || token.UNKNOWN?
    {
      var lastCharWasStar := false;
      while mBufferIt < |mBuffer|
        invariant Valid()
        invariant L.MultiLineComment(Rest(), lastCharWasStar) == L.MultiLineComment(old(Rest()), false)
      {
        if lastCharWasStar && mBuffer[mBufferIt] == '/' {
          Advance();
          return ML_COMMENT;
        }
        lastCharWasStar := mBuffer[mBufferIt] == '*';
        Advance();
      }
      return Token.UNKNOWN;
    }

    /** Gathers the characters before the next newline or quote. */
    method ReadCharacters()
      requires Valid()
      modifies this
      ensures Valid() && Rest() == L.UpToEither(old(Rest()), '\n', '\"')
      ensures mCurrentStr == old(Rest())[..|old(Rest())| - |Rest()|]
    {
      hide L.UpToEither;
      ghost var start := mBufferIt;
      ghost var text := Rest();
      mCurrentStr := "";
      while mBufferIt < |mBuffer| && mBuffer[mBufferIt] != '\n' && mBuffer[mBufferIt] != '\"'
        invariant Valid() && start <= mBufferIt && mCurrentStr == text[..mBufferIt - start]
        invariant forall i | 0 <= i < mBufferIt - start :: text[i] != '\n' && text[i] != '\"'
      {
        mCurrentStr := mCurrentStr + [mBuffer[mBufferIt]];
        Advance();
      }
      L.SearchEnds(text, '\n', '\"', |mCurrentStr|);
    }

    method ReadString() returns (token: Token)
      requires Valid() && mBufferIt < |mBuffer|
      modifies this
      ensures Valid() && (token, Rest()) == L.StringToken(old(Rest())[1..])
      ensures token.UNKNOWN? || (token.STRING_LITERAL? && mCurrentStr == token.text)
    {
      hide L.UpToEither;
      Advance();
      ReadCharacters();
      if mBufferIt == |mBuffer| {
        return Token.UNKNOWN;
      } else if mBuffer[mBufferIt] == '\n' {
        SkipTo('\"');
        Advance();
        return Token.UNKNOWN;
      }
      Advance();
      return STRING_LITERAL(mCurrentStr);
    }

    method ReadWord() returns (token: Token)
      requires Valid() && mBufferIt < |mBuffer| && IsAlpha(mBuffer[mBufferIt])
      modifies this
      ensures Valid() && var s := old(Rest()); (token, Rest()) == (L.WordToken(s[..L.WordLength(s)]), s[L.WordLength(s)..])
      ensures token.IDENTIFIER? ==> mCurrentStr == token.name
      ensures !token.STRING_LITERAL? && !token.NUMBER?
    {
      hide L.WordToken, L.WordLength;
      ghost var start := mBufferIt;
      ghost var text := Rest();
      mCurrentStr := [mBuffer[mBufferIt]];
      Advance();
      while mBufferIt < |mBuffer| && IsAlnum(mBuffer[mBufferIt])
        invariant Valid() && start < mBufferIt && mCurrentStr == text[..mBufferIt - start]
        invariant forall i | 0 <= i < mBufferIt - start :: IsAlnum(text[i])
      {
        mCurrentStr := mCurrentStr + [mBuffer[mBufferIt]];
        Advance();
      }
      L.WordEnds(text, |mCurrentStr|);
      L.WordIsKeywordOrName(mCurrentStr);
      return L.WordToken(mCurrentStr);
    }

    method ReadNumber() returns (token: Token)
      requires Valid() && mBufferIt < |mBuffer| && IsDigit(mBuffer[mBufferIt])
      modifies this
      ensures Valid() && (token, Rest()) == L.NumberToken(old(Rest()))
      ensures token.UNKNOWN? || (token.NUMBER? && mCurrentNumber == token.value)
    {
      hide Value, L.NumeralLength, L.UpToEither;
      ghost var start := mBufferIt;
      ghost var text := Rest();
      var numberStr := "";
      while IsDigit(Current())
        invariant Valid() && start <= mBufferIt && numberStr == text[..mBufferIt - start] && AllDigits(numberStr)
        decreases |mBuffer| - mBufferIt
      {
        numberStr := numberStr + [mBuffer[mBufferIt]];
        Advance();
      }
      L.NumeralEnds(text, |numberStr|);
      assert Rest() == text[|numberStr|..];
      if IsAlpha(Current()) {
        SkipTo(';');
        Advance();
        return Token.UNKNOWN;
      }
      mCurrentNumber := Value(numberStr);
      return Token.NUMBER(mCurrentNumber);
    }
  }
}
