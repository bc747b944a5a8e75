/** Where comments end, and what the lexer makes of texts that spell no token: strings and comments
    that are not closed, numbers that run into letters, and characters outside the language. */
module LexedComments {
  import opened Characters
  import opened Tokens
  import opened Lexing

  /** A comment to the end of the line: the line break is left. */
  lemma LineCommentIsRead(body: string, k: string)
    requires '\n' !in body && (k == [] || k[0] == '\n')
    ensures TokenAt("//" + body + k) == (COMMENT, k)
  {
    hide UpToEither, MultiLineComment, StringToken, NumberToken, WordToken;
    var s := "//" + body + k;
    assert s[0] == '/' && At(s, 1) == '/';
    SearchEnds(s[1..], '\n', '\n', 1 + |body|);
    assert s[1..][1 + |body|..] == k;
  }

  /** A star and a slash end at `i`. */
  predicate ClosesAt(s: string, i: nat)
    requires i < |s|
  {
    i > 0 && s[i - 1] == '*' && s[i] == '/'
  }

  lemma {:induction false} CommentGoesOn(s: string, star: bool, n: nat)
    requires n <= |s| && (n > 0 ==> !(star && s[0] == '/')) && forall j :: 0 < j < n ==> !ClosesAt(s, j)
    ensures MultiLineComment(s, star) == MultiLineComment(s[n..], if n == 0 then star else s[n - 1] == '*')
  {
    if n > 0 {
      var rest := s[1..];
      forall j | 0 < j < n - 1 ensures !ClosesAt(rest, j) {
        assert !ClosesAt(s, j + 1);
      }
      if n > 1 {
        assert !ClosesAt(s, 1);
      }
      CommentGoesOn(rest, s[0] == '*', n - 1);
      assert rest[n - 1..] == s[n..];
    }
  }

  /** A comment of several lines ends with the first star and slash behind its first character; the
      star that opens it may be that star. If there are none, all the rest is lost. */
  lemma BlockCommentIsRead(s: string, n: nat)
    requires 2 <= n <= |s| && s[0] == '/' && s[1] == '*' && forall j :: 2 <= j < n ==> !ClosesAt(s, j)
    ensures n < |s| && ClosesAt(s, n) ==> TokenAt(s) == (ML_COMMENT, s[n + 1..])
    ensures n == |s| ==> TokenAt(s) == (Token.UNKNOWN, [])
  {
    hide UpToEither, StringToken, NumberToken, WordToken;
    var t := s[1..];
    forall j | 0 < j < n - 1 ensures !ClosesAt(t, j) {
      assert !ClosesAt(s, j + 1);
    }
    CommentGoesOn(t, false, n - 1);
    assert t[n - 1..] == s[n..] && t[n - 2] == s[n - 1];
    assert TokenAt(s) == MultiLineComment(t, false) == MultiLineComment(s[n..], s[n - 1] == '*');
  }

  lemma QuoteOpensString(t: string)
    ensures TokenAt("\"" + t) == StringToken(t)
  {
    hide StringToken, UpToEither, MultiLineComment, NumberToken, WordToken;
    assert ("\"" + t)[1..] == t;
  }

  /** A string that is not closed on its line is lost with all the lines up to the next quote,
      wherever that is. */
  lemma OpenStringIsLost(body: string, lines: string, n: nat)
    requires '\n' !in body && '\"' !in body && lines != [] && lines[0] == '\n'
    requires n <= |lines| && (forall i | 0 <= i < n :: lines[i] != '\"') && (n < |lines| ==> lines[n] == '\"')
    ensures TokenAt("\"" + (body + lines)) == (Token.UNKNOWN, Drop(lines[n..], 1))
  {
    hide UpToEither, TokenAt, Drop;
    QuoteOpensString(body + lines);
    SearchEnds(body + lines, '\n', '\"', |body|);
    assert (body + lines)[|body|..] == lines;
    SearchEnds(lines, '\"', '\"', n);
  }

  /** So is one that is not closed at all. */
  lemma EndlessStringIsLost(body: string)
    requires '\n' !in body && '\"' !in body
    ensures TokenAt("\"" + body) == (Token.UNKNOWN, [])
  {
    hide UpToEither, TokenAt;
    QuoteOpensString(body);
    SearchEnds(body, '\n', '\"', |body|);
  }

  /** A number that runs into a letter is lost, up to and with the next semicolon. */
  lemma SpoiledNumberIsLost(digits: string, between: string, k: string)
    requires digits != [] && AllDigits(digits) && between != [] && IsAlpha(between[0]) && ';' !in between
    requires k == [] || k[0] == ';'
    ensures TokenAt(digits + between + k) == (Token.UNKNOWN, Drop(k, 1))
  {
    hide UpToEither, MultiLineComment, StringToken, WordToken, Value;
    var s := digits + between + k;
    assert s[..|digits|] == digits && s[0] == digits[0] && s[|digits|] == between[0];
    NumeralEnds(s, |digits|);
    assert s[|digits|..] == between + k;
    SearchEnds(between + k, ';', ';', |between|);
    assert (between + k)[|between|..] == k;
  }
}
