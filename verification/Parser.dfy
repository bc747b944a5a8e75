/** The parser: a cursor over the tokens of a program, moved by mutually recursive routines. */
module Parser {
  import opened Ast
  import opened Tokens
  import P = Parsing

  class Parser {
    const mTokens: seq<Token>
    var mPos: nat
    var mCurrentToken: Token

    ghost predicate Valid()
      reads this
    {
      mPos <= |mTokens| && mCurrentToken == Cur(mTokens[mPos..])
    }

    /** The tokens that are left, the current one first. */
    ghost function Rest(): seq<Token>
      requires Valid()
      reads this
    {
      mTokens[mPos..]
    }

    constructor (tokens: seq<Token>)
      ensures Valid() && Rest() == tokens
    {
      mTokens := tokens;
      mPos := 0;
      mCurrentToken := Cur(tokens);
      new;
      assert tokens[0..] == tokens;
    }

    method GetNextToken()
      requires Valid()
      modifies this
      ensures Valid() && Rest() == Next(old(Rest()))
    {
      if mPos < |mTokens| {
        assert mTokens[mPos..][1..] == mTokens[mPos + 1..];
        mPos := mPos + 1;
      }
      mCurrentToken := Cur(mTokens[mPos..]);
    }

    // ---------- programs ----------

    method ParseProgram() returns (ok: bool, root: ASTNode)
      requires Valid()
      modifies this
      ensures Valid() && P.Outcome(ok, root, Rest()) == P.ParseProgram(old(Rest()))
    {
      hide P.ParseDecl, P.SkipToDecl;
      var decls: seq<ASTNode> := [];
      var node := ErrorNode;
      ghost var start := P.ParseDecls(node, Rest());
      AfterTwice([], [], start);
      while mCurrentToken != TOK_EOF
        invariant Valid()
        invariant start == After(decls, P.ParseDecls(node, Rest()))
        decreases |Rest()|
      {
        ghost var before := Rest();
        ok, node := ParseDecl(node);
        P.SkipsOne(before);
        if !ok {
          return false, Null;
        }
        SkipToDecl();
        AfterTwice(decls, [node], P.ParseDecls(Null, Rest()));
        decls := decls + [node];
        node := Null;
      }
      AfterTwice(decls, [], P.ParseDecls(node, Rest()));
      return true, ProgramDecl(decls);
    }

    method ParseDecl(left: ASTNode) returns (ok: bool, node: ASTNode)
      requires Valid()
      modifies this
      ensures Valid() && P.Outcome(ok, node, Rest()) == P.ParseDecl(left, old(Rest()))
    {
      hide P.ParseVarDecl, P.ParseFunctionDecl;
      if mCurrentToken == VAR {
        ok, node := ParseVarDecl();
      } else if mCurrentToken == FUNCTION {
        ok, node := ParseFunctionDecl();
      } else {
        return true, left;
      }
    }

    /** Goes to the next declaration, past whatever is left of a malformed one. */
    method SkipToDecl()
      requires Valid()
      modifies this
      ensures Valid() && Rest() == P.SkipToDecl(old(Rest()))
    {
      while mCurrentToken != VAR && mCurrentToken != FUNCTION && mCurrentToken != TOK_EOF
        invariant Valid() && P.SkipToDecl(Rest()) == P.SkipToDecl(old(Rest()))
        decreases |Rest()|
      {
        GetNextToken();
      }
    }

    // ---------- declarations ----------

    method ParseFunctionDecl() returns (ok: bool, node: ASTNode)
      requires Valid()
      modifies this
      ensures Valid() && P.Outcome(ok, node, Rest()) == P.ParseFunctionDecl(old(Rest()))
    {
      hide P.ParseParams, P.ParseReturnType;
      GetNextToken();
      if !mCurrentToken.IDENTIFIER? {
        return true, ErrorNode;
      }
      var fnName := mCurrentToken.name;
      GetNextToken();
      if !mCurrentToken.LEFT_PAREN? {
        return true, ErrorNode;
      }
      GetNextToken();
      var params;
      ok, params := ParseParams();
      if !ok {
        return false, Null;
      } else if params.None? {
        return true, ErrorNode;
      }
      GetNextToken();
      ok, node := ParseReturnType(fnName, params.value);
    }

    method ParseParams() returns (ok: bool, params: Option<seq<ASTNode>>)
      requires Valid()
      modifies this
      ensures Valid() && P.Outcome(ok, params, Rest()) == P.ParseParams(old(Rest()))
    {
      hide P.ParseParam;
      var found: seq<ASTNode> := [];
      ghost var start := P.ParseParams(Rest());
      Listed([], [], start);
      while !mCurrentToken.RIGHT_PAREN?
        invariant Valid()
        invariant start == Before(found, P.ParseParams(Rest()))
        decreases |Rest()|
      {
        var param;
        ok, param := ParseParam();
        if !ok {
          return false, None;
        } else if param.None? || (!mCurrentToken.RIGHT_PAREN? && !mCurrentToken.COMMA?) {
          return true, None;
        }
        if mCurrentToken.RIGHT_PAREN? {
          return true, Some(found + [param.value]);
        }
        GetNextToken();
        Listed(found, [param.value], P.ParseParams(Rest()));
        found := found + [param.value];
      }
      Listed(found, [], P.ParseParams(Rest()));
      return true, Some(found);
    }

    /** One turn of the loop over the parameters. */
    method ParseParam() returns (ok: bool, param: Option<ASTNode>)
      requires Valid()
      modifies this
      ensures Valid() && P.Outcome(ok, param, Rest()) == P.ParseParam(old(Rest()))
    {
      hide P.ParseArrayType;
      if !mCurrentToken.IDENTIFIER? {
        return true, None;
      }
      var varName := mCurrentToken.name;
      GetNextToken();
      if !mCurrentToken.COLON? {
        return true, None;
      }
      GetNextToken();
      if !mCurrentToken.TYPE? {
        return true, None;
      }
      var vType, varSize := mCurrentToken.ty, 0;
      GetNextToken();
      if mCurrentToken.LEFT_BRACKET? {
        var arrayType;
        ok, arrayType := ParseArrayType(vType);
        if !ok {
          return false, None;
        } else if arrayType.ok {
          return true, None;
        }
        vType, varSize := arrayType.ty, arrayType.size;
      }
      return true, Some(VarDecl(varName, vType, true, varSize, Null, DEFAULT_LOCATION));
    }

    method ParseReturnType(name: string, params: seq<ASTNode>) returns (ok: bool, node: ASTNode)
      requires Valid()
      modifies this
      ensures Valid() && P.Outcome(ok, node, Rest()) == P.ParseReturnType(name, params, old(Rest()))
    {
      hide P.ParseArrayType, P.ParseCompoundStmt;
      if !mCurrentToken.ARROW? {
        return true, ErrorNode;
      }
      GetNextToken();
      if !mCurrentToken.TYPE? {
        return true, ErrorNode;
      }
      var fnType := mCurrentToken.ty;
      GetNextToken();
      if mCurrentToken.LEFT_BRACKET? {
        var arrayType;
        ok, arrayType := ParseArrayType(fnType);
        if !ok {
          return false, Null;
        } else if arrayType.ok {
          return true, ErrorNode;
        }
        fnType := arrayType.ty;
      }
      var body;
      ok, body := ParseCompoundStmt();
      node := FunctionDecl(name, fnType, ParamVarDecls(params), body, DEFAULT_LOCATION);
    }

    method ParseArrayType(ty: Type) returns (ok: bool, arrayType: P.ArrayType)
      requires Valid()
      modifies this
      ensures Valid() && P.Outcome(ok, arrayType, Rest()) == P.ParseArrayType(old(Rest()), ty)
    {
      if ArrayVersion(ty).None? {
        return false, P.ArrayType(false, 0, ERROR);
      }
      var arrTy := ArrayVersion(ty).value;
      ok, arrayType := true, P.ArrayType(false, 0, arrTy);
      GetNextToken();
      if !mCurrentToken.NUMBER? || mCurrentToken.value == 0 {
        return;
      }
      var size := mCurrentToken.value;
      GetNextToken();
      arrayType := P.ArrayType(false, size, arrTy);
      if !mCurrentToken.RIGHT_BRACKET? {
        return;
      }
      GetNextToken();
      arrayType := P.ArrayType(true, size, arrTy);
    }

    method ParseVarDecl() returns (ok: bool, node: ASTNode)
      requires Valid()
      modifies this
      ensures Valid() && P.Outcome(ok, node, Rest()) == P.ParseVarDecl(old(Rest()))
      decreases |Rest()|, 0
    {
      hide P.ParseArrayType, P.ParseInit;
      GetNextToken();
      if !mCurrentToken.IDENTIFIER? {
        return true, ErrorNode;
      }
      var varName := mCurrentToken.name;
      GetNextToken();
      if !mCurrentToken.COLON? {
        return true, ErrorNode;
      }
      GetNextToken();
      if !mCurrentToken.TYPE? || mCurrentToken.ty.VOID? {
        return true, ErrorNode;
      }
      var vType, varSize := mCurrentToken.ty, 0;
      GetNextToken();
      if mCurrentToken.LEFT_BRACKET? {
        var arrayType;
        ok, arrayType := ParseArrayType(vType);
        if !ok {
          return false, Null;
        } else if !arrayType.ok {
          return true, ErrorNode;
        }
        vType, varSize := arrayType.ty, arrayType.size;
      }
      ok, node := ParseInit(varName, vType, varSize);
    }

    /** The optional initializer and the semicolon of a variable declaration. */
    method ParseInit(name: string, ty: Type, size: nat) returns (ok: bool, node: ASTNode)
      requires Valid()
      modifies this
      ensures Valid() && P.Outcome(ok, node, Rest()) == P.ParseInit(name, ty, size, old(Rest()))
    {
      hide P.ParseExpr;
      var init := Null;
      if mCurrentToken == ASSIGN {
        GetNextToken();
        ok, init := ParseExpr();
        if !ok {
          return false, Null;
        } else if init.Null? {
          return true, ErrorNode;
        }
      }
      if mCurrentToken.SEMI_COLON? {
        return true, VarDecl(name, ty, false, size, init, DEFAULT_LOCATION);
      }
      return true, ErrorNode;
    }

    // ---------- expressions ----------

    method ParseExpr() returns (ok: bool, node: ASTNode)
      requires Valid()
      modifies this
      ensures Valid() && P.Outcome(ok, node, Rest()) == P.ParseExpr(old(Rest()))
      decreases |Rest()|, 1
    {
      hide P.ParseTail, P.ParseArrayExpr;
      match mCurrentToken {
        case FALSE => node := BooleanExpr(false, DEFAULT_LOCATION);
        case TRUE => node := BooleanExpr(true, DEFAULT_LOCATION);
        case NUMBER(value) => node := NumberExpr(value, DEFAULT_LOCATION);
        case IDENTIFIER(name) => node := IdentifierExpr(name, DEFAULT_LOCATION);
        case STRING_LITERAL(text) => node := StringExpr(text, DEFAULT_LOCATION);
        case LEFT_BRACE =>
          ok, node := ParseArrayExpr();
          if !ok {
            return false, Null;
          }
        case SPAWN =>
          GetNextToken();
          node := Null;
        case OPERATOR(_) =>
          GetNextToken();
          return true, Null;
        case _ =>
          return true, Null;
      }
      GetNextToken();
      ok, node := ParseTail(node);
    }

    /** The loop over what comes next. */
    method ParseTail(first: ASTNode) returns (ok: bool, node: ASTNode)
      requires Valid()
      modifies this
      ensures Valid() && P.Outcome(ok, node, Rest()) == P.ParseTail(first, old(Rest()))
      decreases |Rest()|, 1
    {
      hide P.ParseBinaryOpExpr, P.ParseCallExpr;
      node := first;
      while !P.IsTerminator(mCurrentToken)
        invariant Valid() && |Rest()| <= old(|Rest()|)
        invariant P.ParseTail(node, Rest()) == P.ParseTail(first, old(Rest()))
        decreases |Rest()|
      {
        if mCurrentToken.OPERATOR? {
          ok, node := ParseBinaryOpExpr(mCurrentToken.op, node);
        } else if mCurrentToken.LEFT_PAREN? {
          ok, node := ParseCallExpr(node);
        } else if mCurrentToken.LEFT_BRACKET? {
          // The indexed expression made here is what the same bracket indexes next
          return false, Null;
        } else {
          return true, Null;
        }
        if !ok {
          return false, Null;
        }
      }
      ok := true;
    }

    method ParseBinaryOpExpr(op: Operation, lhs: ASTNode) returns (ok: bool, node: ASTNode)
      requires Valid() && Rest() != []
      modifies this
      ensures Valid() && P.Outcome(ok, node, Rest()) == P.ParseBinaryOpExpr(op, lhs, old(Rest()))
      decreases |Rest()|, 0
    {
      hide P.ParseExpr;
      GetNextToken();
      var rhs;
      ok, rhs := ParseExpr();
      if !ok || rhs.Null? {
        return ok, Null;
      }
      ok := !lhs.Null?;
      node := BinaryExpr(op, lhs, rhs, DEFAULT_LOCATION);
    }

    method ParseCallExpr(fn: ASTNode) returns (ok: bool, node: ASTNode)
      requires Valid() && Rest() != []
      modifies this
      ensures Valid() && P.Outcome(ok, node, Rest()) == P.ParseCallExpr(fn, old(Rest()))
      decreases |Rest()|, 0
    {
      hide P.ParseArgs, P.NameOf;
      GetNextToken();
      var args;
      ok, args := ParseArgs();
      if !ok || args.None? {
        return ok, Null;
      }
      ok := !fn.Null?;
      node := CallExpr(P.NameOf(fn), args.value, DEFAULT_LOCATION);
    }

    /** The loop over the arguments of a call, closing parenthesis included. */
    method ParseArgs() returns (ok: bool, found: Option<seq<ASTNode>>)
      requires Valid()
      modifies this
      ensures Valid() && P.Outcome(ok, found, Rest()) == P.ParseArgs(old(Rest()))
      decreases |Rest()|, 2
    {
      hide P.ParseExpr;
      var args: seq<ASTNode> := [];
      ghost var start := P.ParseArgs(Rest());
      Listed([], [], start);
      while !mCurrentToken.RIGHT_PAREN?
        invariant Valid() && |Rest()| <= old(|Rest()|)
        invariant start == Before(args, P.ParseArgs(Rest()))
        decreases |Rest()|
      {
        var arg;
        ok, arg := ParseExpr();
        if !ok {
          return false, None;
        }
        if mCurrentToken.RIGHT_PAREN? {
          args := args + [arg];
          break;
        } else if !mCurrentToken.COMMA? {
          return true, None;
        }
        GetNextToken();
        Listed(args, [arg], P.ParseArgs(Rest()));
        args := args + [arg];
      }
      Listed(args, [], P.ParseArgs(Rest()));
      GetNextToken();
      return true, Some(args);
    }

    method ParseArrayExpr() returns (ok: bool, node: ASTNode)
      requires Valid() && Rest() != []
      modifies this
      ensures Valid() && P.Outcome(ok, node, Rest()) == P.ParseArrayExpr(old(Rest()))
      decreases |Rest()|, 0
    {
      hide P.ParseExpr;
      GetNextToken();
      var elems: seq<ASTNode> := [];
      ghost var start := P.ParseElems(Rest());
      Listed([], [], start);
      while !mCurrentToken.RIGHT_BRACE?
        invariant Valid() && |Rest()| < old(|Rest()|)
        invariant start == Before(elems, P.ParseElems(Rest()))
        decreases |Rest()|
      {
        var elem;
        ok, elem := ParseExpr();
        if !ok {
          return false, Null;
        }
        if mCurrentToken.RIGHT_BRACE? {
          elems := elems + [elem];
          break;
        } else if !mCurrentToken.COMMA? {
          return true, Null;
        }
        GetNextToken();
        Listed(elems, [elem], P.ParseElems(Rest()));
        elems := elems + [elem];
      }
      Listed(elems, [], P.ParseElems(Rest()));
      return true, ArrayExpr(elems, DEFAULT_LOCATION);
    }

    // ---------- statements ----------

    method ParseCompoundStmt() returns (ok: bool, node: ASTNode)
      requires Valid()
      modifies this
      ensures Valid() && P.Outcome(ok, node, Rest()) == P.ParseCompoundStmt(old(Rest()))
      decreases |Rest()|, 1
    {
      hide P.ParseStmt;
      if !mCurrentToken.LEFT_BRACE? {
        return true, Null;
      }
      GetNextToken();
      var stmts: seq<ASTNode> := [];
      ghost var start := P.ParseStmts(Rest());
      AfterTwice([], [], start);
      while !mCurrentToken.RIGHT_BRACE? && !mCurrentToken.TOK_EOF?
        invariant Valid() && |Rest()| < old(|Rest()|)
        invariant start == After(stmts, P.ParseStmts(Rest()))
        decreases |Rest()|
      {
        if mCurrentToken.COMMENT? || mCurrentToken.ML_COMMENT? {
          GetNextToken();
          continue;
        }
        var stmt;
        ok, stmt := ParseStmt();
        if !ok {
          return false, Null;
        }
        GetNextToken();
        AfterTwice(stmts, [stmt], P.ParseStmts(Rest()));
        stmts := stmts + [stmt];
      }
      AfterTwice(stmts, [], P.ParseStmts(Rest()));
      return true, CompoundStmt(stmts);
    }

    method ParseStmt() returns (ok: bool, node: ASTNode)
      requires Valid() && Rest() != []
      modifies this
      ensures Valid() && P.Outcome(ok, node, Rest()) == P.ParseStmt(old(Rest()))
      decreases |Rest()|, 3
    {
      hide P.ParseVarDecl, P.ParseExpr, P.ParseGuarded, P.ParseReturnStmt, P.ParsePrintStmt, P.ParseScanStmt;
      hide P.ParseSleepStmt;
      match mCurrentToken {
        case VAR => ok, node := ParseVarDecl();
        case IDENTIFIER(_) => ok, node := ParseExpr();
        case IF => ok, node := ParseGuarded();
        case WHILE => ok, node := ParseGuarded();
        case RETURN => ok, node := ParseReturnStmt();
        case PRINT => ok, node := ParsePrintStmt();
        case SCAN => ok, node := ParseScanStmt();
        case SPAWN => ok, node := ParseExpr();
        case SLEEP => ok, node := ParseSleepStmt();
        case SYNC => return true, SyncStmt(DEFAULT_LOCATION);
        case FUNCTION =>
          while !mCurrentToken.RIGHT_BRACE? && !mCurrentToken.TOK_EOF?
            invariant Valid() && P.SkipToBrace(Rest()) == P.SkipToBrace(old(Rest()))
            decreases |Rest()|
          {
            GetNextToken();
          }
          return true, Null;
        case _ => return true, Null;
      }
    }

    /** An if or while statement. */
    method ParseGuarded() returns (ok: bool, node: ASTNode)
      requires Valid() && Rest() != [] && (mCurrentToken.IF? || mCurrentToken.WHILE?)
      modifies this
      ensures Valid() && P.Outcome(ok, node, Rest()) == P.ParseGuarded(old(Rest()))
      decreases |Rest()|, 2
    {
      hide P.ParseExpr, P.ParseCompoundStmt;
      var isIf := mCurrentToken.IF?;
      GetNextToken();
      var cond, body;
      ok, cond := ParseExpr();
      if !ok {
        return false, Null;
      }
      ok, body := ParseCompoundStmt();
      if !ok {
        return false, Null;
      }
      if cond.Null? || body.Null? {
        return true, ErrorNode;
      }
      return true, if isIf then IfStmt(cond, body, DEFAULT_LOCATION) else WhileStmt(cond, body, DEFAULT_LOCATION);
    }

    method ParsePrintStmt() returns (ok: bool, node: ASTNode)
      requires Valid()
      modifies this
      ensures Valid() && P.Outcome(ok, node, Rest()) == P.ParsePrintStmt(old(Rest()))
    {
      hide P.ParseExpr;
      GetNextToken();
      if mCurrentToken.SEMI_COLON? {
        return true, PrintStmt(Null, DEFAULT_LOCATION);
      }
      var message;
      ok, message := ParseExpr();
      node := if message.Null? then ErrorNode else PrintStmt(message, DEFAULT_LOCATION);
    }

    method ParseReturnStmt() returns (ok: bool, node: ASTNode)
      requires Valid()
      modifies this
      ensures Valid() && P.Outcome(ok, node, Rest()) == P.ParseReturnStmt(old(Rest()))
    {
      hide P.ParseExpr;
      GetNextToken();
      var result;
      ok, result := ParseExpr();
      node := ReturnStmt(result, DEFAULT_LOCATION);
    }

    method ParseScanStmt() returns (ok: bool, node: ASTNode)
      requires Valid()
      modifies this
      ensures Valid() && P.Outcome(ok, node, Rest()) == P.ParseScanStmt(old(Rest()))
    {
      hide P.ParseExpr;
      GetNextToken();
      var input;
      ok, input := ParseExpr();
      node := if input.IdentifierExpr? then ScanStmt(IdentifierExpr(input.name, DEFAULT_LOCATION), DEFAULT_LOCATION)
              else ErrorNode;
    }

    method ParseSleepStmt() returns (ok: bool, node: ASTNode)
      requires Valid()
      modifies this
      ensures Valid() && P.Outcome(ok, node, Rest()) == P.ParseSleepStmt(old(Rest()))
    {
      hide P.ParseExpr;
      GetNextToken();
      var count;
      ok, count := ParseExpr();
      node := if count.Null? then ErrorNode else SleepStmt(count, DEFAULT_LOCATION);
    }
  }

  /** The list items `ns` in front of those still to come; a malformed rest spoils the list. */
  function Before(ns: seq<ASTNode>, r: P.Parse<Option<seq<ASTNode>>>): P.Parse<Option<seq<ASTNode>>> {
    match r
    case Done(Some(ms), rest) => P.Done(Some(ns + ms), rest)
    case _ => r
  }

  lemma Listed(ns: seq<ASTNode>, ms: seq<ASTNode>, r: P.Parse<Option<seq<ASTNode>>>)
    ensures Before(ns, Before(ms, r)) == Before(ns + ms, r) && Before([], r) == r
    ensures r.Done? && r.value == Some([]) ==> Before(ns, r) == P.Done(Some(ns), r.rest)
  {
    if r.Done? && r.value.Some? {
      assert ns + (ms + r.value.value) == ns + ms + r.value.value;
      assert [] + r.value.value == r.value.value && ns + [] == ns;
    }
  }

  /** The nodes `ns` in front of those still to come. */
  function After(ns: seq<ASTNode>, r: P.Parse<seq<ASTNode>>): P.Parse<seq<ASTNode>> {
    match r
    case Done(ms, rest) => P.Done(ns + ms, rest)
    case Aborted => P.Aborted
  }

  lemma AfterTwice(ns: seq<ASTNode>, ms: seq<ASTNode>, r: P.Parse<seq<ASTNode>>)
    ensures After(ns, After(ms, r)) == After(ns + ms, r) && After([], r) == r
    ensures r.Done? && r.value == [] ==> After(ns, r) == P.Done(ns, r.rest)
  {
    if r.Done? {
      assert ns + (ms + r.value) == ns + ms + r.value;
      assert [] + r.value == r.value && ns + [] == ns;
    }
  }
}
