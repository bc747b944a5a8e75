/** What the parser does, routine by routine, as functions of the tokens that are left, the
    current one first. Source locations are not kept. */
module Parsing {
  import opened Ast
  import opened Characters
  import opened Tokens


  /** Where a routine ends: with a value (for nodes, `Null` is a null pointer) and the tokens it
      leaves, or in the failure of one of the parser's own assertions. */
  datatype Parse<+T> = Done(value: T, rest: seq<Token>) | Aborted

  predicate IsTerminator(t: Token) {
    t.SEMI_COLON? || t.LEFT_BRACE? || t.RIGHT_BRACE? || t.RIGHT_PAREN? || t.COMMA?
  }

  // ---------- expressions ----------

  function ParseExpr(ts: seq<Token>): (r: Parse<ASTNode>)
    ensures r.Done? ==> |r.rest| <= |ts|
    ensures r.Done? && !r.value.Null? ==> IsTerminator(Cur(r.rest))
    decreases |ts|, 1
  {
    match Cur(ts)
    case FALSE => ParseTail(BooleanExpr(false, DEFAULT_LOCATION), Next(ts))
    case TRUE => ParseTail(BooleanExpr(true, DEFAULT_LOCATION), Next(ts))
    case NUMBER(value) => ParseTail(NumberExpr(value, DEFAULT_LOCATION), Next(ts))
    case IDENTIFIER(name) => ParseTail(IdentifierExpr(name, DEFAULT_LOCATION), Next(ts))
    case STRING_LITERAL(text) => ParseTail(StringExpr(text, DEFAULT_LOCATION), Next(ts))
    case LEFT_BRACE =>
      (match ParseArrayExpr(ts)
       case Done(list, q) => ParseTail(list, Next(q))
       case Aborted => Aborted)
    // The spawned name is skipped, and the call that follows has no callee
    case SPAWN => ParseTail(Null, Next(Next(ts)))
    case OPERATOR(_) => Done(Null, Next(ts))
    case _ => Done(Null, ts)
  }

  /** The loop that extends the expression `node` until a terminator. */
  function ParseTail(node: ASTNode, ts: seq<Token>): (r: Parse<ASTNode>)
    ensures r.Done? ==> |r.rest| <= |ts|
    ensures r.Done? && !r.value.Null? ==> IsTerminator(Cur(r.rest))
    decreases |ts|, 1
  {
    if IsTerminator(Cur(ts)) then Done(node, ts)
    else match Cur(ts)
      case OPERATOR(op) =>
        (match ParseBinaryOpExpr(op, node, ts)
         case Done(binary, q) => ParseTail(binary, q)
         case Aborted => Aborted)
      case LEFT_PAREN =>
        (match ParseCallExpr(node, ts)
         case Done(call, q) => ParseTail(call, q)
         case Aborted => Aborted)
      // The bracket is never passed: it indexes the indexed expression it has just made
      case LEFT_BRACKET => Aborted
      case _ => Done(Null, ts)
  }

  /** The right operand of the current operator; a missing one makes the whole null. */
  function ParseBinaryOpExpr(op: Operation, lhs: ASTNode, ts: seq<Token>): (r: Parse<ASTNode>)
    requires ts != []
    ensures r.Done? ==> |r.rest| < |ts|
    decreases |ts|, 0
  {
    match ParseExpr(Next(ts))
    case Done(rhs, q) =>
      if rhs.Null? then Done(Null, q)
      else if lhs.Null? then Aborted
      else Done(BinaryExpr(op, lhs, rhs, DEFAULT_LOCATION), q)
    case Aborted => Aborted
  }

  /** The call of whatever `fn` is named. */
  function ParseCallExpr(fn: ASTNode, ts: seq<Token>): (r: Parse<ASTNode>)
    requires ts != []
    ensures r.Done? ==> |r.rest| < |ts|
    decreases |ts|, 0
  {
    match ParseArgs(Next(ts))
    case Done(Some(args), q) =>
      if fn.Null? then Aborted else Done(CallExpr(NameOf(fn), args, DEFAULT_LOCATION), q)
    case Done(None, q) => Done(Null, q)
    case Aborted => Aborted
  }

  function ParseArrayExpr(ts: seq<Token>): (r: Parse<ASTNode>)
    requires ts != []
    ensures r.Done? ==> |r.rest| < |ts|
    decreases |ts|, 0
  {
    match ParseElems(Next(ts))
    case Done(Some(elems), q) => Done(ArrayExpr(elems, DEFAULT_LOCATION), q)
    case Done(None, q) => Done(Null, q)
    case Aborted => Aborted
  }

  /** The arguments of a call up to and including its closing parenthesis; none if malformed. */
  function ParseArgs(ts: seq<Token>): (r: Parse<Option<seq<ASTNode>>>)
    ensures r.Done? ==> |r.rest| <= |ts|
    decreases |ts|, 2
  {
    if Cur(ts).RIGHT_PAREN? then Done(Some([]), Next(ts))
    else match ParseExpr(ts)
      case Done(arg, q) =>
        if Cur(q).RIGHT_PAREN? then Done(Some([arg]), Next(q))
        else if Cur(q).COMMA? then Prepend(arg, ParseArgs(Next(q)))
        else Done(None, q)
      case Aborted => Aborted
  }

  /** The elements of an array up to its closing brace; none if malformed. */
  function ParseElems(ts: seq<Token>): (r: Parse<Option<seq<ASTNode>>>)
    ensures r.Done? ==> |r.rest| <= |ts|
    decreases |ts|, 2
  {
    if Cur(ts).RIGHT_BRACE? then Done(Some([]), ts)
    else match ParseExpr(ts)
      case Done(elem, q) =>
        if Cur(q).RIGHT_BRACE? then Done(Some([elem]), q)
        else if Cur(q).COMMA? then Prepend(elem, ParseElems(Next(q)))
        else Done(None, q)
      case Aborted => Aborted
  }

  function Prepend(n: ASTNode, r: Parse<Option<seq<ASTNode>>>): Parse<Option<seq<ASTNode>>> {
    match r
    case Done(Some(ns), q) => Done(Some([n] + ns), q)
    case _ => r
  }

  /** The name every node carries, whether or not it is one. */
  function NameOf(n: ASTNode): string {
    match n
    case IdentifierExpr(name, _) => name
    case CallExpr(name, _, _) => name
    case BooleanExpr(flag, _) => if flag then "True" else "False"
    case NumberExpr(value, _) => if value < 0 then "" else Decimal(value)
    case StringExpr(text, _) => text
    case _ => ""
  }

  // ---------- declarations ----------

  /** Size and type of an array; both are set before the syntax has been checked to the end. */
  datatype ArrayType = ArrayType(ok: bool, size: nat, ty: Type)

  function ParseArrayType(ts: seq<Token>, ty: Type): (r: Parse<ArrayType>)
    ensures r.Done? ==> |r.rest| <= |ts|
  {
    match ArrayVersion(ty)
    case None => Aborted
    case Some(arrTy) =>
      var t1, t2 := Next(ts), Next(Next(ts));
      if !Cur(t1).NUMBER? || Cur(t1).value == 0 then Done(ArrayType(false, 0, arrTy), t1)
      else if !Cur(t2).RIGHT_BRACKET? then Done(ArrayType(false, Cur(t1).value, arrTy), t2)
      else Done(ArrayType(true, Cur(t1).value, arrTy), Next(t2))
  }

  /** A declaration that is malformed becomes an error node. */
  function ParseVarDecl(ts: seq<Token>): (r: Parse<ASTNode>)
    ensures r.Done? ==> |r.rest| <= |Next(ts)|
  {
    var t1 := Next(ts);
    var t2 := Next(t1);
    var t3 := Next(t2);
    if !Cur(t1).IDENTIFIER? then Done(ErrorNode, t1)
    else if !Cur(t2).COLON? then Done(ErrorNode, t2)
    else if !Cur(t3).TYPE? || Cur(t3).ty.VOID? then Done(ErrorNode, t3)
    else if !Cur(Next(t3)).LEFT_BRACKET? then ParseInit(Cur(t1).name, Cur(t3).ty, 0, Next(t3))
    else match ParseArrayType(Next(t3), Cur(t3).ty)
      case Done(ArrayType(ok, size, ty), q) =>
        if ok then ParseInit(Cur(t1).name, ty, size, q) else Done(ErrorNode, q)
      case Aborted => Aborted
  }

  /** The rest of a variable declaration: an optional initializer and the semicolon. */
  function ParseInit(name: string, ty: Type, size: nat, ts: seq<Token>): (r: Parse<ASTNode>)
    ensures r.Done? ==> |r.rest| <= |ts|
  {
    if Cur(ts) == ASSIGN then
      match ParseExpr(Next(ts))
      case Done(init, q) =>
        if init.Null? || !Cur(q).SEMI_COLON? then Done(ErrorNode, q)
        else Done(VarDecl(name, ty, false, size, init, DEFAULT_LOCATION), q)
      case Aborted => Aborted
    else if Cur(ts).SEMI_COLON? then Done(VarDecl(name, ty, false, size, Null, DEFAULT_LOCATION), ts)
    else Done(ErrorNode, ts)
  }

  /** One parameter; none if malformed. An array type counts as malformed when it is well
      formed. */
  function ParseParam(ts: seq<Token>): (r: Parse<Option<ASTNode>>)
    ensures r.Done? ==> |r.rest| <= |ts|
  {
    var t1 := Next(ts);
    var t2 := Next(t1);
    if !Cur(ts).IDENTIFIER? then Done(None, ts)
    else if !Cur(t1).COLON? then Done(None, t1)
    else if !Cur(t2).TYPE? then Done(None, t2)
    else if !Cur(Next(t2)).LEFT_BRACKET? then Done(Some(Param(Cur(ts).name, Cur(t2).ty, 0)), Next(t2))
    else match ParseArrayType(Next(t2), Cur(t2).ty)
      case Done(ArrayType(ok, size, ty), q) =>
        if ok then Done(None, q) else Done(Some(Param(Cur(ts).name, ty, size)), q)
      case Aborted => Aborted
  }

  function Param(name: string, ty: Type, size: nat): ASTNode {
    VarDecl(name, ty, true, size, Null, DEFAULT_LOCATION)
  }

  /** The parameters up to the closing parenthesis; none if malformed. */
  function ParseParams(ts: seq<Token>): (r: Parse<Option<seq<ASTNode>>>)
    ensures r.Done? ==> |r.rest| <= |ts|
    decreases |ts|
  {
    if Cur(ts).RIGHT_PAREN? then Done(Some([]), ts)
    else match ParseParam(ts)
      case Done(Some(param), q) =>
        if Cur(q).RIGHT_PAREN? then Done(Some([param]), q)
        else if Cur(q).COMMA? then Prepend(param, ParseParams(Next(q)))
        else Done(None, q)
      case Done(None, q) => Done(None, q)
      case Aborted => Aborted
  }

  function ParseFunctionDecl(ts: seq<Token>): (r: Parse<ASTNode>)
    ensures r.Done? ==> |r.rest| <= |Next(ts)|
  {
    var t1 := Next(ts);
    var t2 := Next(t1);
    if !Cur(t1).IDENTIFIER? then Done(ErrorNode, t1)
    else if !Cur(t2).LEFT_PAREN? then Done(ErrorNode, t2)
    else match ParseParams(Next(t2))
      case Done(Some(params), q) => ParseReturnType(Cur(t1).name, params, Next(q))
      case Done(None, q) => Done(ErrorNode, q)
      case Aborted => Aborted
  }

  function ParseReturnType(name: string, params: seq<ASTNode>, ts: seq<Token>): (r: Parse<ASTNode>)
    ensures r.Done? ==> |r.rest| <= |ts|
  {
    var t1 := Next(ts);
    if !Cur(ts).ARROW? then Done(ErrorNode, ts)
    else if !Cur(t1).TYPE? then Done(ErrorNode, t1)
    else if !Cur(Next(t1)).LEFT_BRACKET? then ParseBody(name, Cur(t1).ty, params, Next(t1))
    else match ParseArrayType(Next(t1), Cur(t1).ty)
      case Done(ArrayType(ok, _, ty), q) => if ok then Done(ErrorNode, q) else ParseBody(name, ty, params, q)
      case Aborted => Aborted
  }

  function ParseBody(name: string, ty: Type, params: seq<ASTNode>, ts: seq<Token>): (r: Parse<ASTNode>)
    ensures r.Done? ==> |r.rest| <= |ts|
  {
    match ParseCompoundStmt(ts)
    case Done(body, q) => Done(FunctionDecl(name, ty, ParamVarDecls(params), body, DEFAULT_LOCATION), q)
    case Aborted => Aborted
  }

  // ---------- statements ----------

  /** A block up to its closing brace, which stays current; null if it does not open. */
  function ParseCompoundStmt(ts: seq<Token>): (r: Parse<ASTNode>)
    ensures r.Done? ==> |r.rest| <= |ts|
    decreases |ts|, 1
  {
    if !Cur(ts).LEFT_BRACE? then Done(Null, ts)
    else match ParseStmts(Next(ts))
      case Done(stmts, q) => Done(CompoundStmt(stmts), q)
      case Aborted => Aborted
  }

  function ParseStmts(ts: seq<Token>): (r: Parse<seq<ASTNode>>)
    ensures r.Done? ==> |r.rest| <= |ts|
    decreases |ts|, 3
  {
    if Cur(ts).RIGHT_BRACE? || Cur(ts).TOK_EOF? then Done([], ts)
    else if Cur(ts).COMMENT? || Cur(ts).ML_COMMENT? then ParseStmts(Next(ts))
    else match ParseStmt(ts)
      case Done(stmt, q) =>
        (match ParseStmts(Next(q))
         case Done(stmts, rest) => Done([stmt] + stmts, rest)
         case Aborted => Aborted)
      case Aborted => Aborted
  }

  /** One statement, up to its last token. What starts no statement becomes a null pointer. */
  function ParseStmt(ts: seq<Token>): (r: Parse<ASTNode>)
    requires ts != []
    ensures r.Done? ==> |r.rest| <= |ts|
    decreases |ts|, 2
  {
    match Cur(ts)
    case VAR => ParseVarDecl(ts)
    case IDENTIFIER(_) => ParseExpr(ts)
    case IF => ParseGuarded(ts)
    case WHILE => ParseGuarded(ts)
    case RETURN => ParseReturnStmt(ts)
    case PRINT => ParsePrintStmt(ts)
    case SCAN => ParseScanStmt(ts)
    case SPAWN => ParseExpr(ts)
    case SLEEP => ParseSleepStmt(ts)
    case SYNC => Done(SyncStmt(DEFAULT_LOCATION), ts)
    case FUNCTION => Done(Null, SkipToBrace(ts))
    case _ => Done(Null, ts)
  }

  function SkipToBrace(ts: seq<Token>): (rest: seq<Token>)
    ensures |rest| <= |ts|
    decreases |ts|
  {
    if Cur(ts).RIGHT_BRACE? || Cur(ts).TOK_EOF? then ts else SkipToBrace(Next(ts))
  }

  /** An if or while statement. */
  function ParseGuarded(ts: seq<Token>): (r: Parse<ASTNode>)
    requires ts != [] && (ts[0].IF? || ts[0].WHILE?)
    ensures r.Done? ==> |r.rest| <= |ts|
    decreases |ts|, 1
  {
    match ParseExpr(Next(ts))
    case Done(cond, q) =>
      (match ParseCompoundStmt(q)
       case Done(body, rest) =>
         if cond.Null? || body.Null? then Done(ErrorNode, rest)
         else if ts[0].IF? then Done(IfStmt(cond, body, DEFAULT_LOCATION), rest)
         else Done(WhileStmt(cond, body, DEFAULT_LOCATION), rest)
       case Aborted => Aborted)
    case Aborted => Aborted
  }

  function ParsePrintStmt(ts: seq<Token>): (r: Parse<ASTNode>)
    ensures r.Done? ==> |r.rest| <= |ts|
  {
    if Cur(Next(ts)).SEMI_COLON? then Done(PrintStmt(Null, DEFAULT_LOCATION), Next(ts))
    else match ParseExpr(Next(ts))
      case Done(message, q) => Done(if message.Null? then ErrorNode else PrintStmt(message, DEFAULT_LOCATION), q)
      case Aborted => Aborted
  }

  function ParseReturnStmt(ts: seq<Token>): (r: Parse<ASTNode>)
    ensures r.Done? ==> |r.rest| <= |ts|
  {
    match ParseExpr(Next(ts))
    case Done(result, q) => Done(ReturnStmt(result, DEFAULT_LOCATION), q)
    case Aborted => Aborted
  }

  function ParseScanStmt(ts: seq<Token>): (r: Parse<ASTNode>)
    ensures r.Done? ==> |r.rest| <= |ts|
  {
    match ParseExpr(Next(ts))
    case Done(input, q) =>
      Done(if input.IdentifierExpr? then ScanStmt(IdentifierExpr(input.name, DEFAULT_LOCATION), DEFAULT_LOCATION)
           else ErrorNode, q)
    case Aborted => Aborted
  }

  function ParseSleepStmt(ts: seq<Token>): (r: Parse<ASTNode>)
    ensures r.Done? ==> |r.rest| <= |ts|
  {
    match ParseExpr(Next(ts))
    case Done(count, q) => Done(if count.Null? then ErrorNode else SleepStmt(count, DEFAULT_LOCATION), q)
    case Aborted => Aborted
  }

  // ---------- programs ----------

  function SkipToDecl(ts: seq<Token>): (rest: seq<Token>)
    ensures |rest| <= |ts|
    decreases |ts|
  {
    if Cur(ts).VAR? || Cur(ts).FUNCTION? || Cur(ts).TOK_EOF? then ts else SkipToDecl(Next(ts))
  }

  /** The top-level declarations. A token that starts none adds the node left over from before:
      an error node at the very start, a null pointer later. */
  function ParseDecls(left: ASTNode, ts: seq<Token>): (r: Parse<seq<ASTNode>>)
    decreases |ts|
  {
    if Cur(ts).TOK_EOF? then Done([], ts)
    else match ParseDecl(left, ts)
      case Done(decl, q) =>
        SkipsOne(ts);
        (match ParseDecls(Null, SkipToDecl(q))
         case Done(decls, rest) => Done([decl] + decls, rest)
         case Aborted => Aborted)
      case Aborted => Aborted
  }

  function ParseDecl(left: ASTNode, ts: seq<Token>): (r: Parse<ASTNode>)
    ensures r.Done? && (Cur(ts).VAR? || Cur(ts).FUNCTION?) ==> |r.rest| < |ts|
    ensures !(Cur(ts).VAR? || Cur(ts).FUNCTION?) ==> r == Done(left, ts)
  {
    match Cur(ts)
    case VAR => ParseVarDecl(ts)
    case FUNCTION => ParseFunctionDecl(ts)
    case _ => Done(left, ts)
  }

  lemma SkipsOne(ts: seq<Token>)
    ensures !(Cur(ts).VAR? || Cur(ts).FUNCTION? || Cur(ts).TOK_EOF?) ==> |SkipToDecl(ts)| < |ts|
  {
  }

  function ParseProgram(ts: seq<Token>): Parse<ASTNode> {
    match ParseDecls(ErrorNode, ts)
    case Done(decls, rest) => Done(ProgramDecl(decls), rest)
    case Aborted => Aborted
  }

  /** What a routine hands back, read off its results and the tokens it leaves. */
  function Outcome<T>(ok: bool, value: T, rest: seq<Token>): Parse<T> {
    if ok then Done(value, rest) else Aborted
  }
}
