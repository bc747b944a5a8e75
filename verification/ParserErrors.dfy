/** What becomes of source that is not a program: which tree stands in for a malformed construct and
    where the parser goes on, and the constructs of the language that it never reads. */
module ParserErrors {
  import opened Ast
  import opened Tokens
  import opened Spelling
  import opened Parsing
  import opened ParserRoundTrip

  /** A token that no expression starts with, and that is passed over when one is expected only if it
      is an operator. */
  predicate StartsNoExpr(t: Token) {
    !(t.FALSE? || t.TRUE? || t.NUMBER? || t.IDENTIFIER? || t.STRING_LITERAL? || t.LEFT_BRACE? || t.SPAWN? || t.OPERATOR?)
  }

  lemma NoExpr(t: Token, k: seq<Token>)
    requires StartsNoExpr(t)
    ensures ParseExpr([t] + k) == Done(Null, [t] + k)
  {
    Pop(t, k);
  }

  // ---------- expressions ----------

  /** An operator without right operand makes a null expression of all that is in front of it. */
  lemma MissingOperandIsNull(n: ASTNode, op: Operation, t: Token, k: seq<Token>)
    requires IsSourceExpr(n) && !n.BinaryExpr? && IsTerminator(t) && StartsNoExpr(t)
    ensures ParseExpr(ExprTokens(n) + ([OPERATOR(op)] + ([t] + k))) == Done(Null, [t] + k)
  {
    hide ExprTokens, ParseExpr;
    var end := [t] + k;
    NoExpr(t, k);
    Pop(t, k);
    Pop(OPERATOR(op), end);
    PrimaryParses(n, [OPERATOR(op)] + end);
    ReparsedKeepsKind(n);
    assert ParseBinaryOpExpr(op, Reparsed(n), [OPERATOR(op)] + end) == Done(Null, end);
  }

  /** What is put in brackets behind an operand is never read: the parser gives up. */
  lemma IndexingIsNeverRead(n: ASTNode, k: seq<Token>)
    requires IsSourceExpr(n) && !n.BinaryExpr?
    ensures ParseExpr(ExprTokens(n) + ([LEFT_BRACKET] + k)) == Aborted
  {
    hide ExprTokens, ParseExpr;
    Pop(LEFT_BRACKET, k);
    PrimaryParses(n, [LEFT_BRACKET] + k);
  }

  /** Nor is the call that is to be spawned, whatever its arguments. */
  lemma SpawningIsNeverRead(n: ASTNode, k: seq<Token>)
    requires IsSourceExpr(n) && n.CallExpr?
    ensures ParseExpr([SPAWN] + (ExprTokens(n) + k)) == Aborted
  {
    hide ParseArgs, ParseExpr, ListTokens;
    var list := ListTokens(n, 0) + ([RIGHT_PAREN] + k);
    var call := [LEFT_PAREN] + list;
    assert ExprTokens(n) + k == [IDENTIFIER(n.name)] + call;
    Pop(SPAWN, ExprTokens(n) + k);
    Pop(IDENTIFIER(n.name), call);
    Pop(LEFT_PAREN, list);
    Pop(RIGHT_PAREN, k);
    ListParses(n, 0, [RIGHT_PAREN] + k);
    SpawnSkipsName([SPAWN] + (ExprTokens(n) + k));
  }

  lemma SpawnSkipsName(ts: seq<Token>)
    requires Cur(ts).SPAWN?
    ensures ParseExpr(ts) == ParseTail(Null, Next(Next(ts)))
  {
    hide ParseTail;
  }

  // ---------- statements ----------

  /** A statement that wants an expression and finds none is an error node. A print or return may go
      without, but then a print wants its semicolon. */
  lemma MissingExprIsError(t: Token, k: seq<Token>)
    requires StartsNoExpr(t)
    ensures ParseStmt([SLEEP] + ([t] + k)) == Done(ErrorNode, [t] + k)
    ensures ParseStmt([SCAN] + ([t] + k)) == Done(ErrorNode, [t] + k)
    ensures ParseStmt([PRINT] + ([t] + k)) == Done(if t.SEMI_COLON? then PrintStmt(Null, DEFAULT_LOCATION) else ErrorNode, [t] + k)
    ensures ParseStmt([RETURN] + ([t] + k)) == Done(ReturnStmt(Null, DEFAULT_LOCATION), [t] + k)
  {
    hide ParseExpr;
    NoExpr(t, k);
    Pop(t, k);
    Pop(SLEEP, [t] + k);
    Pop(SCAN, [t] + k);
    Pop(PRINT, [t] + k);
    Pop(RETURN, [t] + k);
  }

  /** Only an identifier can be scanned. */
  lemma ScanningOthersIsError(n: ASTNode, k: seq<Token>)
    requires IsSourceExpr(n) && IsTerminator(Cur(k))
    ensures ParseStmt([SCAN] + (ExprTokens(n) + k)).Done?
    ensures ParseStmt([SCAN] + (ExprTokens(n) + k)).value.ErrorNode? <==> !n.IdentifierExpr?
  {
    hide ParseExpr, ExprTokens, Reparsed;
    Pop(SCAN, ExprTokens(n) + k);
    ExprParses(n, k);
    NameStaysName(n);
  }

  lemma NameStaysName(n: ASTNode)
    ensures Reparsed(n).IdentifierExpr? <==> n.IdentifierExpr?
  {
  }

  /** A condition without a block behind it, or none at all. */
  lemma MissingBlockIsError(first: Token, n: ASTNode, t: Token, k: seq<Token>)
    requires first == IF || first == WHILE
    requires IsSourceExpr(n) && IsTerminator(t) && !t.LEFT_BRACE?
    ensures ParseStmt([first] + (ExprTokens(n) + ([t] + k))) == Done(ErrorNode, [t] + k)
    ensures StartsNoExpr(t) ==> ParseStmt([first] + ([t] + k)) == Done(ErrorNode, [t] + k)
  {
    hide ParseExpr, ExprTokens, Reparsed;
    var end := [t] + k;
    Pop(t, k);
    Pop(first, ExprTokens(n) + end);
    Pop(first, end);
    ExprParses(n, end);
    assert ParseCompoundStmt(end) == Done(Null, end);
    hide ParseCompoundStmt, Cur, Next;
    assert ParseGuarded([first] + (ExprTokens(n) + end)) == Done(ErrorNode, end);
    if StartsNoExpr(t) {
      NoExpr(t, k);
    }
  }

  /** A sync statement ends with its keyword: the semicolon behind it makes a null statement. */
  lemma SyncTakesNoSemicolon(k: seq<Token>)
    ensures ParseStmts(k).Done? ==>
              var (stmts, rest) := (ParseStmts(k).value, ParseStmts(k).rest);
              && ParseStmts([SYNC] + k) == Done([SyncStmt(DEFAULT_LOCATION)] + stmts, rest)
              && ParseStmts([SYNC] + ([SEMI_COLON] + k)) == Done([SyncStmt(DEFAULT_LOCATION), Null] + stmts, rest)
  {
    if ParseStmts(k).Done? {
      var stmts, rest := ParseStmts(k).value, ParseStmts(k).rest;
      Pop(SYNC, k);
      Pop(SEMI_COLON, k);
      Pop(SYNC, [SEMI_COLON] + k);
      hide ParseStmts;
      NextStmt([SYNC] + k, SyncStmt(DEFAULT_LOCATION), [SYNC] + k, stmts, rest);
      NextStmt([SEMI_COLON] + k, Null, [SEMI_COLON] + k, stmts, rest);
      NextStmt([SYNC] + ([SEMI_COLON] + k), SyncStmt(DEFAULT_LOCATION), [SYNC] + ([SEMI_COLON] + k), [Null] + stmts, rest);
      assert [SyncStmt(DEFAULT_LOCATION)] + ([Null] + stmts) == [SyncStmt(DEFAULT_LOCATION), Null] + stmts;
    }
  }

  lemma NextStmt(ts: seq<Token>, stmt: ASTNode, q: seq<Token>, stmts: seq<ASTNode>, rest: seq<Token>)
    requires ts != [] && !(ts[0].RIGHT_BRACE? || ts[0].TOK_EOF? || ts[0].COMMENT? || ts[0].ML_COMMENT?)
    requires ParseStmt(ts) == Done(stmt, q) && ParseStmts(Next(q)) == Done(stmts, rest)
    ensures ParseStmts(ts) == Done([stmt] + stmts, rest)
  {
    hide ParseStmt;
  }

  /** A function inside a block is skipped up to the first closing brace, and leaves a null pointer;
      what follows that brace belongs to the block. */
  lemma InnerFunctionIsSkipped(body: seq<Token>, k: seq<Token>)
    requires forall t | t in body :: !t.RIGHT_BRACE? && !t.TOK_EOF?
    ensures ParseStmts(k).Done? ==>
              ParseStmts([FUNCTION] + (body + ([RIGHT_BRACE] + k))) == Done([Null] + ParseStmts(k).value, ParseStmts(k).rest)
  {
    var ts := [FUNCTION] + (body + ([RIGHT_BRACE] + k));
    if ParseStmts(k).Done? {
      Pop(FUNCTION, body + ([RIGHT_BRACE] + k));
      Pop(RIGHT_BRACE, k);
      assert ts == ([FUNCTION] + body) + ([RIGHT_BRACE] + k);
      BraceIsFound([FUNCTION] + body, k);
      hide ParseStmts;
      NextStmt(ts, Null, [RIGHT_BRACE] + k, ParseStmts(k).value, ParseStmts(k).rest);
    }
  }

  lemma {:induction false} BraceIsFound(body: seq<Token>, k: seq<Token>)
    requires forall t | t in body :: !t.RIGHT_BRACE? && !t.TOK_EOF?
    ensures SkipToBrace(body + ([RIGHT_BRACE] + k)) == [RIGHT_BRACE] + k
    decreases |body|
  {
    Pop(RIGHT_BRACE, k);
    if body == [] {
      assert body + ([RIGHT_BRACE] + k) == [RIGHT_BRACE] + k;
    } else {
      assert body[0] in body;
      assert body + ([RIGHT_BRACE] + k) == [body[0]] + (body[1..] + ([RIGHT_BRACE] + k));
      Pop(body[0], body[1..] + ([RIGHT_BRACE] + k));
      BraceIsFound(body[1..], k);
    }
  }

  // ---------- declarations ----------

  /** A variable declaration with a wrong token in place of its name, its colon, its type or what may
      follow the type is an error node, and the parser goes on at that token. */
  lemma MalformedVarIsError(name: string, ty: Type, t: Token, k: seq<Token>)
    requires IsScalar(ty)
    ensures var bad := Done(ErrorNode, [t] + k);
            && (!t.IDENTIFIER? ==> ParseVarDecl([VAR] + ([t] + k)) == bad)
            && (!t.COLON? ==> ParseVarDecl([VAR] + ([IDENTIFIER(name)] + ([t] + k))) == bad)
            && (!t.TYPE? || t.ty.VOID? ==> ParseVarDecl([VAR] + ([IDENTIFIER(name)] + ([COLON] + ([t] + k)))) == bad)
            && (!t.LEFT_BRACKET? && t != ASSIGN && !t.SEMI_COLON? ==>
                 ParseVarDecl([VAR] + ([IDENTIFIER(name)] + ([COLON] + ([TYPE(ty)] + ([t] + k))))) == bad)
  {
    hide ParseExpr, ParseArrayType;
    Pop(t, k);
    Pop(VAR, [t] + k);
    Pop(IDENTIFIER(name), [t] + k);
    Pop(VAR, [IDENTIFIER(name)] + ([t] + k));
    var colon := [COLON] + ([t] + k);
    Pop(COLON, [t] + k);
    Pop(IDENTIFIER(name), colon);
    Pop(VAR, [IDENTIFIER(name)] + colon);
    var typed := [COLON] + ([TYPE(ty)] + ([t] + k));
    Pop(TYPE(ty), [t] + k);
    Pop(COLON, [TYPE(ty)] + ([t] + k));
    Pop(IDENTIFIER(name), typed);
    Pop(VAR, [IDENTIFIER(name)] + typed);
  }

  /** So is one whose initializer is missing or does not end with a semicolon. */
  lemma MalformedInitIsError(name: string, ty: Type, size: nat, n: ASTNode, t: Token, k: seq<Token>)
    requires IsSourceExpr(n)
    ensures StartsNoExpr(t) ==> ParseInit(name, ty, size, [ASSIGN] + ([t] + k)) == Done(ErrorNode, [t] + k)
    ensures var init := if t.SEMI_COLON? then VarDecl(name, ty, false, size, Reparsed(n), DEFAULT_LOCATION) else ErrorNode;
            IsTerminator(t) ==> ParseInit(name, ty, size, [ASSIGN] + (ExprTokens(n) + ([t] + k))) == Done(init, [t] + k)
  {
    hide ParseExpr, ExprTokens, Reparsed;
    Pop(t, k);
    Pop(ASSIGN, [t] + k);
    Pop(ASSIGN, ExprTokens(n) + ([t] + k));
    ReparsedKeepsKind(n);
    if StartsNoExpr(t) {
      NoExpr(t, k);
    }
    if IsTerminator(t) {
      ExprParses(n, [t] + k);
    }
  }

  /** A function with a wrong token in place of its name, its parenthesis, its arrow or its result. */
  lemma MalformedFunctionIsError(name: string, params: seq<ASTNode>, t: Token, k: seq<Token>)
    requires forall i | 0 <= i < |params| :: IsSourceParam(params[i])
    ensures var bad := Done(ErrorNode, [t] + k);
            && (!t.IDENTIFIER? ==> ParseFunctionDecl([FUNCTION] + ([t] + k)) == bad)
            && (!t.LEFT_PAREN? ==> ParseFunctionDecl([FUNCTION] + ([IDENTIFIER(name)] + ([t] + k))) == bad)
            && (!t.ARROW? ==> ParseFunctionDecl(Header(name, params, [t] + k)) == bad)
            && (!t.TYPE? ==> ParseFunctionDecl(Header(name, params, [ARROW] + ([t] + k))) == bad)
  {
    hide ParseParams, Header, ParseBody, ParseArrayType, ReparsedAll;
    Pop(t, k);
    Pop(FUNCTION, [t] + k);
    Pop(IDENTIFIER(name), [t] + k);
    Pop(FUNCTION, [IDENTIFIER(name)] + ([t] + k));
    Pop(ARROW, [t] + k);
    HeaderParses(name, params, [t] + k);
    HeaderParses(name, params, [ARROW] + ([t] + k));
  }

  predicate StartNoDecl(ts: seq<Token>) {
    forall t | t in ts :: !t.VAR? && !t.FUNCTION? && !t.TOK_EOF?
  }

  predicate AtDecl(k: seq<Token>) {
    k == [] || k[0].VAR? || k[0].FUNCTION?
  }

  /** Tokens in front of the first declaration, comments included, leave an error node. */
  lemma LeadingTokensAreError(others: seq<Token>, k: seq<Token>)
    requires others != [] && StartNoDecl(others) && AtDecl(k) && ParseDecls(Null, k).Done?
    ensures ParseProgram(others + k) == Done(ProgramDecl([ErrorNode] + ParseDecls(Null, k).value), ParseDecls(Null, k).rest)
  {
    hide ParseDecls, ParseDecl;
    assert others[0] in others && Cur(others + k) == others[0];
    DeclIsFound(others, k);
    NextDecl(ErrorNode, others + k, ErrorNode, others + k, k);
  }

  /** Those behind a declaration are skipped. */
  lemma OtherTokensAreSkipped(left: ASTNode, n: ASTNode, others: seq<Token>, k: seq<Token>)
    requires left == ErrorNode || left == Null
    requires StartNoDecl(others) && AtDecl(k) && IsSourceDecl(n) && ParseDecls(Null, k).Done?
    ensures ParseDecls(left, DeclTokens(n) + (others + k)) == Done([Reparsed(n)] + ParseDecls(Null, k).value, ParseDecls(Null, k).rest)
  {
    hide ParseDecls, ParseDecl, DeclTokens, Reparsed, IsSourceDecl, SkipToDecl;
    DeclParses(n, others + k);
    var last := if n.VarDecl? then SEMI_COLON else RIGHT_BRACE;
    LastIsSkipped(last, others, k);
    NextDecl(left, DeclTokens(n) + (others + k), Reparsed(n), [last] + (others + k), k);
  }

  lemma LastIsSkipped(last: Token, others: seq<Token>, k: seq<Token>)
    requires !last.VAR? && !last.FUNCTION? && !last.TOK_EOF? && StartNoDecl(others) && AtDecl(k)
    ensures SkipToDecl([last] + (others + k)) == k
  {
    DeclIsFound([last] + others, k);
    assert [last] + (others + k) == ([last] + others) + k;
  }

  lemma NextDecl(left: ASTNode, ts: seq<Token>, decl: ASTNode, q: seq<Token>, k: seq<Token>)
    requires ts != [] && !Cur(ts).TOK_EOF? && ParseDecl(left, ts) == Done(decl, q) && SkipToDecl(q) == k
    requires ParseDecls(Null, k).Done?
    ensures ParseDecls(left, ts) == Done([decl] + ParseDecls(Null, k).value, ParseDecls(Null, k).rest)
  {
    hide ParseDecl, SkipToDecl;
  }

  lemma {:induction false} DeclIsFound(others: seq<Token>, k: seq<Token>)
    requires StartNoDecl(others) && AtDecl(k)
    ensures SkipToDecl(others + k) == k
    decreases |others|
  {
    if others == [] {
      assert others + k == k;
    } else {
      assert others[0] in others;
      assert others + k == [others[0]] + (others[1..] + k);
      Pop(others[0], others[1..] + k);
      DeclIsFound(others[1..], k);
    }
  }
}
