/** Parsing what a tree is written down as gives the tree back with its operators nested to the
    right; so it gives the same tree exactly when they were. */
module ParserRoundTrip {
  import opened Ast
  import opened Tokens
  import opened Spelling
  import opened Parsing

  // ---------- tokens ----------

  lemma Pop(t: Token, k: seq<Token>)
    ensures Cur([t] + k) == t && Next([t] + k) == k
  {
    assert ([t] + k)[1..] == k;
  }

  // ---------- what comes back ----------

  function ReparsedAll(ns: seq<ASTNode>): seq<ASTNode> {
    seq(|ns|, i requires 0 <= i < |ns| => Reparsed(ns[i]))
  }

  lemma ReparsedFirst(ns: seq<ASTNode>)
    requires ns != []
    ensures ReparsedAll(ns) == [Reparsed(ns[0])] + ReparsedAll(ns[1..])
  {
  }

  lemma ReparsedIsRebuilt(n: ASTNode)
    requires !n.BinaryExpr?
    ensures Reparsed(n) == Rebuilt(n, ReparsedAll(n.Children()))
  {
  }

  lemma ReparsedKeepsKind(n: ASTNode)
    ensures n.BinaryExpr? <==> Reparsed(n).BinaryExpr?
    ensures n.Null? <==> Reparsed(n).Null?
    ensures n.CompoundStmt? <==> Reparsed(n).CompoundStmt?
  {
  }

  // ---------- expressions ----------

  /** An expression that is not binary: the parser reads it up to its last token and goes on with
      whatever follows. */
  lemma {:induction false} PrimaryParses(n: ASTNode, k: seq<Token>)
    requires IsSourceExpr(n) && !n.BinaryExpr?
    ensures ParseExpr(ExprTokens(n) + k) == ParseTail(Reparsed(n), k)
    decreases n, |n.Children()| + 1
  {
    hide ParseTail, ListTokens, ParseArgs, ParseElems, ReparsedAll;
    ReparsedIsRebuilt(n);
    if n.ArrayExpr? {
      ArrayParses(n, k);
    } else if n.CallExpr? {
      CallParses(n, k);
    } else {
      Pop(ExprTokens(n)[0], k);
    }
  }

  lemma {:induction false} ArrayParses(n: ASTNode, k: seq<Token>)
    requires IsSourceExpr(n) && n.ArrayExpr?
    ensures ParseExpr(ExprTokens(n) + k) == ParseTail(Reparsed(n), k)
    decreases n, |n.Children()| + 1, 0
  {
    hide ParseTail, ListTokens, ParseElems, ReparsedAll;
    ReparsedIsRebuilt(n);
    ListParses(n, 0, [RIGHT_BRACE] + k);
    var rest := ListTokens(n, 0) + ([RIGHT_BRACE] + k);
    assert ExprTokens(n) + k == [LEFT_BRACE] + rest;
    Pop(LEFT_BRACE, rest);
    Pop(RIGHT_BRACE, k);
    assert n.elems[0..] == n.elems;
  }

  lemma {:induction false} CallParses(n: ASTNode, k: seq<Token>)
    requires IsSourceExpr(n) && n.CallExpr?
    ensures ParseExpr(ExprTokens(n) + k) == ParseTail(Reparsed(n), k)
    decreases n, |n.Children()| + 1, 0
  {
    hide ListTokens, ParseArgs, ReparsedAll, ParseExpr, ParseTail;
    ReparsedIsRebuilt(n);
    ListParses(n, 0, [RIGHT_PAREN] + k);
    var rest := ListTokens(n, 0) + ([RIGHT_PAREN] + k);
    assert ExprTokens(n) + k == [IDENTIFIER(n.name)] + ([LEFT_PAREN] + rest);
    NameParses(n.name, [LEFT_PAREN] + rest);
    Pop(RIGHT_PAREN, k);
    assert n.args[0..] == n.args;
    TailTakesArgs(n.name, rest, ReparsedAll(n.args), k);
  }

  lemma TailTakesArgs(name: string, ts: seq<Token>, args: seq<ASTNode>, k: seq<Token>)
    requires ParseArgs(ts) == Done(Some(args), k)
    ensures ParseTail(IdentifierExpr(name, DEFAULT_LOCATION), [LEFT_PAREN] + ts)
         == ParseTail(CallExpr(name, args, DEFAULT_LOCATION), k)
  {
    hide ParseArgs, ParseExpr;
    Pop(LEFT_PAREN, ts);
  }

  lemma NameParses(name: string, k: seq<Token>)
    ensures ParseExpr([IDENTIFIER(name)] + k) == ParseTail(IdentifierExpr(name, DEFAULT_LOCATION), k)
  {
    hide ParseTail;
    Pop(IDENTIFIER(name), k);
  }

  /** The elements of an array or the arguments of a call, up to the closing token. */
  lemma {:induction false} ListParses(n: ASTNode, i: nat, k: seq<Token>)
    requires IsSourceExpr(n) && (n.ArrayExpr? || n.CallExpr?) && i <= |n.Children()|
    requires Cur(k) == if n.ArrayExpr? then RIGHT_BRACE else RIGHT_PAREN
    ensures n.ArrayExpr? ==> ParseElems(ListTokens(n, i) + k) == Done(Some(ReparsedAll(n.elems[i..])), k)
    ensures n.CallExpr? ==> ParseArgs(ListTokens(n, i) + k) == Done(Some(ReparsedAll(n.args[i..])), Next(k))
    decreases n, |n.Children()| - i
  {
    hide ParseExpr, ExprTokens, ReparsedAll, IsSourceExpr, ParseElems, ParseArgs, ListTokens;
    var ns := n.Children();
    assert ns == if n.ArrayExpr? then n.elems else n.args;
    ListTokensStep(n, i, k);
    if i == |ns| {
      assert ns[i..] == [];
      NoneReparsed();
      NothingParses(k);
    } else {
      ChildIsSource(n, i);
      var e := ns[i];
      ReparsedFirst(ns[i..]);
      assert ns[i..][1..] == ns[i + 1..];
      if i + 1 == |ns| {
        ExprParses(e, k);
        StartsExpr(e, k);
        assert ns[i + 1..] == [];
        NoneReparsed();
        assert ReparsedAll(ns[i..]) == [Reparsed(e)];
        LastParses(ExprTokens(e) + k, Reparsed(e), k);
      } else {
        var rest := ListTokens(n, i + 1) + k;
        Pop(COMMA, rest);
        ExprParses(e, [COMMA] + rest);
        StartsExpr(e, [COMMA] + rest);
        OneMoreParses(ExprTokens(e) + ([COMMA] + rest), Reparsed(e), rest);
        ListParses(n, i + 1, k);
      }
    }
  }

  lemma ListTokensStep(n: ASTNode, i: nat, k: seq<Token>)
    requires IsSourceExpr(n) && (n.ArrayExpr? || n.CallExpr?) && i <= |n.Children()|
    ensures i == |n.Children()| ==> ListTokens(n, i) + k == k
    ensures i < |n.Children()| ==>
              IsSourceExpr(n.Children()[i]) &&
              ListTokens(n, i) + k == ExprTokens(n.Children()[i])
                                      + (if i + 1 == |n.Children()| then k else [COMMA] + (ListTokens(n, i + 1) + k))
  {
    if i < |n.Children()| {
      ChildIsSource(n, i);
      hide ExprTokens, IsSourceExpr;
    }
  }

  lemma NothingParses(ts: seq<Token>)
    ensures Cur(ts).RIGHT_BRACE? ==> ParseElems(ts) == Done(Some([]), ts)
    ensures Cur(ts).RIGHT_PAREN? ==> ParseArgs(ts) == Done(Some([]), Next(ts))
  {
  }

  lemma LastParses(ts: seq<Token>, e: ASTNode, k: seq<Token>)
    requires ParseExpr(ts) == Done(e, k) && !Cur(ts).RIGHT_BRACE? && !Cur(ts).RIGHT_PAREN?
    ensures Cur(k).RIGHT_BRACE? ==> ParseElems(ts) == Done(Some([e]), k)
    ensures Cur(k).RIGHT_PAREN? ==> ParseArgs(ts) == Done(Some([e]), Next(k))
  {
    hide ParseExpr;
  }

  lemma OneMoreParses(ts: seq<Token>, e: ASTNode, rest: seq<Token>)
    requires ParseExpr(ts) == Done(e, [COMMA] + rest) && !Cur(ts).RIGHT_BRACE? && !Cur(ts).RIGHT_PAREN?
    ensures ParseElems(ts) == Prepend(e, ParseElems(rest)) && ParseArgs(ts) == Prepend(e, ParseArgs(rest))
  {
    hide ParseExpr;
    Pop(COMMA, rest);
  }

  lemma NoneReparsed()
    ensures ReparsedAll([]) == []
  {
  }

  lemma ChildIsSource(n: ASTNode, i: nat)
    requires IsSourceExpr(n) && i < |n.Children()|
    ensures IsSourceExpr(n.Children()[i])
  {
  }

  /** The tokens of an expression do not start with a closing token. */
  lemma {:induction false} StartsExpr(n: ASTNode, k: seq<Token>)
    requires IsSourceExpr(n)
    ensures var t := Cur(ExprTokens(n) + k);
            t.FALSE? || t.TRUE? || t.NUMBER? || t.IDENTIFIER? || t.STRING_LITERAL? || t.LEFT_BRACE?
    ensures StartsWithName(n) ==> Cur(ExprTokens(n) + k).IDENTIFIER?
    decreases n
  {
    hide ListTokens;
    if n.BinaryExpr? {
      var rest := [OPERATOR(n.op)] + ExprTokens(n.rhs) + k;
      StartsExpr(n.lhs, rest);
      assert ExprTokens(n) + k == ExprTokens(n.lhs) + rest;
    }
  }

  /** An expression before a terminator is read to its end, which leaves the terminator current. */
  lemma {:induction false} ExprParses(n: ASTNode, k: seq<Token>)
    requires IsSourceExpr(n) && IsTerminator(Cur(k))
    ensures ParseExpr(ExprTokens(n) + k) == Done(Reparsed(n), k)
    decreases n, |n.Children()| + 2
  {
    hide ParseExpr;
    if n.BinaryExpr? {
      ExprParses(n.rhs, k);
      OperandParses(n.lhs, n.op, ExprTokens(n.rhs) + k, Reparsed(n.rhs), k);
      ReparsedKeepsKind(n.rhs);
      OperationTokens(n, k);
    } else {
      PrimaryParses(n, k);
    }
  }

  lemma OperationTokens(n: ASTNode, k: seq<Token>)
    requires n.BinaryExpr? && IsSourceExpr(n)
    ensures ExprTokens(n) + k == ExprTokens(n.lhs) + ([OPERATOR(n.op)] + (ExprTokens(n.rhs) + k))
  {
    var left, right := ExprTokens(n.lhs), ExprTokens(n.rhs);
    assert ExprTokens(n) == left + ([OPERATOR(n.op)] + right);
  }

  /** An expression before an operator becomes its left operand, all the rest the right one. */
  lemma {:induction false} OperandParses(n: ASTNode, op: Operation, k: seq<Token>, rhs: ASTNode, rest: seq<Token>)
    requires IsSourceExpr(n) && ParseExpr(k) == Done(rhs, rest) && !rhs.Null?
    ensures ParseExpr(ExprTokens(n) + ([OPERATOR(op)] + k)) == Done(Graft(Reparsed(n), op, rhs), rest)
    decreases n, |n.Children()| + 2
  {
    hide ParseExpr, ExprTokens, Graft;
    Pop(OPERATOR(op), k);
    if n.BinaryExpr? {
      var k' := ExprTokens(n.rhs) + ([OPERATOR(op)] + k);
      OperandParses(n.rhs, op, k, rhs, rest);
      OperandParses(n.lhs, n.op, k', Graft(Reparsed(n.rhs), op, rhs), rest);
      GraftAssociates(Reparsed(n.lhs), n.op, Reparsed(n.rhs), op, rhs);
      OperationTokens(n, [OPERATOR(op)] + k);
    } else {
      PrimaryParses(n, [OPERATOR(op)] + k);
      ReparsedKeepsKind(n);
      TailTakesOperand(Reparsed(n), op, k, rhs, rest);
    }
  }

  lemma TailTakesOperand(left: ASTNode, op: Operation, k: seq<Token>, rhs: ASTNode, rest: seq<Token>)
    requires ParseExpr(k) == Done(rhs, rest) && !rhs.Null? && !left.Null? && !left.BinaryExpr?
    ensures ParseTail(left, [OPERATOR(op)] + k) == Done(Graft(left, op, rhs), rest)
  {
    hide ParseExpr;
    Pop(OPERATOR(op), k);
    var node := BinaryExpr(op, left, rhs, DEFAULT_LOCATION);
    assert ParseTail(node, rest) == Done(node, rest);
  }

  // ---------- variables ----------

  lemma ReparsedOptional(n: ASTNode, child: ASTNode)
    requires n.Children() == Present(child) && (n.VarDecl? || n.PrintStmt? || n.ReturnStmt?)
    ensures Reparsed(n) == match n
                           case VarDecl(name, ty, isParam, size, _, _) =>
                             VarDecl(name, ty, isParam, size, Reparsed(child), DEFAULT_LOCATION)
                           case PrintStmt(_, _) => PrintStmt(Reparsed(child), DEFAULT_LOCATION)
                           case ReturnStmt(_, _) => ReturnStmt(Reparsed(child), DEFAULT_LOCATION)
                           case _ => Null
  {
    ReparsedIsRebuilt(n);
    if child.Null? {
      NoneReparsed();
    } else {
      assert ReparsedAll([child]) == [Reparsed(child)];
    }
  }

  lemma InitParses(n: ASTNode, k: seq<Token>)
    requires IsSourceVar(n)
    ensures ParseInit(n.name, n.varType, n.size, InitTokens(n) + ([SEMI_COLON] + k)) == Done(Reparsed(n), [SEMI_COLON] + k)
    ensures !Cur(InitTokens(n) + ([SEMI_COLON] + k)).LEFT_BRACKET?
  {
    hide ParseExpr, ExprTokens, Reparsed, Cur, Next;
    ReparsedOptional(n, n.init);
    Pop(SEMI_COLON, k);
    ReparsedKeepsKind(n.init);
    if n.init.Null? {
      assert InitTokens(n) + ([SEMI_COLON] + k) == [SEMI_COLON] + k;
    } else {
      var rest := ExprTokens(n.init) + ([SEMI_COLON] + k);
      assert InitTokens(n) + ([SEMI_COLON] + k) == [ASSIGN] + rest;
      Pop(ASSIGN, rest);
      ExprParses(n.init, [SEMI_COLON] + k);
    }
  }

  lemma VarParses(n: ASTNode, k: seq<Token>)
    requires IsSourceVar(n)
    ensures ParseVarDecl(VarTokens(n) + k) == Done(Reparsed(n), [SEMI_COLON] + k)
    ensures Cur(VarTokens(n) + k) == VAR
  {
    hide InitTokens, ParseInit, Reparsed, VarTokens, ParseArrayType;
    var t5 := InitTokens(n) + ([SEMI_COLON] + k);
    var t4 := SizeTokens(n) + t5;
    var t3 := [TYPE(ScalarOf(n.varType))] + t4;
    var t2 := [COLON] + t3;
    var t1 := [IDENTIFIER(n.name)] + t2;
    VarTokensAre(n, k);
    Pop(VAR, t1);
    Pop(IDENTIFIER(n.name), t2);
    Pop(COLON, t3);
    Pop(TYPE(ScalarOf(n.varType)), t4);
    InitParses(n, k);
    if n.size > 0 {
      SizeParses(n, t5);
    } else {
      assert t4 == t5;
    }
  }

  lemma VarTokensAre(n: ASTNode, k: seq<Token>)
    requires IsSourceVar(n)
    ensures VarTokens(n) + k
         == [VAR] + ([IDENTIFIER(n.name)] + ([COLON] + ([TYPE(ScalarOf(n.varType))]
            + (SizeTokens(n) + (InitTokens(n) + ([SEMI_COLON] + k))))))
  {
    hide SizeTokens, InitTokens, IsSourceVar;
  }

  lemma SizeParses(n: ASTNode, k: seq<Token>)
    requires IsSourceVar(n) && n.size > 0
    ensures Cur(SizeTokens(n) + k) == LEFT_BRACKET
    ensures ParseArrayType(SizeTokens(n) + k, ScalarOf(n.varType)) == Done(ArrayType(true, n.size, n.varType), k)
  {
    var t2 := [RIGHT_BRACKET] + k;
    var t1 := [Token.NUMBER(n.size)] + t2;
    assert SizeTokens(n) + k == [LEFT_BRACKET] + t1;
    Pop(LEFT_BRACKET, t1);
    Pop(Token.NUMBER(n.size), t2);
    Pop(RIGHT_BRACKET, k);
  }

  // ---------- statements ----------

  /** The last token of a statement, which is current when the statement has been read. */
  function LastToken(n: ASTNode): Token {
    if n.IfStmt? || n.WhileStmt? then RIGHT_BRACE else SEMI_COLON
  }

  lemma OptionalParses(n: ASTNode, k: seq<Token>)
    requires IsOptionalExpr(n)
    ensures ParseExpr(OptionalTokens(n) + ([SEMI_COLON] + k)) == Done(Reparsed(n), [SEMI_COLON] + k)
    ensures Cur(OptionalTokens(n) + ([SEMI_COLON] + k)).SEMI_COLON? <==> n.Null?
  {
    hide ExprTokens, Reparsed, ParseTail;
    Pop(SEMI_COLON, k);
    ReparsedKeepsKind(n);
    if n.Null? {
      assert OptionalTokens(n) + ([SEMI_COLON] + k) == [SEMI_COLON] + k;
      ReparsedNull(n);
    } else {
      ExprParses(n, [SEMI_COLON] + k);
      StartsExpr(n, [SEMI_COLON] + k);
    }
  }

  lemma ReparsedNull(n: ASTNode)
    requires n.Null?
    ensures Reparsed(n) == Null
  {
  }

  lemma PrintParses(n: ASTNode, k: seq<Token>)
    requires n.PrintStmt? && IsSourceStmt(n)
    ensures var ts := StmtTokens(n) + k; Cur(ts) == PRINT && ParsePrintStmt(ts) == Done(Reparsed(n), [SEMI_COLON] + k)
  {
    hide OptionalTokens, ParseExpr, Reparsed;
    var rest := OptionalTokens(n.message) + ([SEMI_COLON] + k);
    assert StmtTokens(n) + k == [PRINT] + rest;
    Pop(PRINT, rest);
    OptionalParses(n.message, k);
    ReparsedOptional(n, n.message);
    ReparsedKeepsKind(n.message);
    assert n.message.Null? ==> rest == [SEMI_COLON] + k by {
      if n.message.Null? {
        NoOptionalTokens(n.message);
      }
    }
  }

  lemma NoOptionalTokens(n: ASTNode)
    requires n.Null?
    ensures OptionalTokens(n) == []
  {
  }

  lemma ReturnParses(n: ASTNode, k: seq<Token>)
    requires n.ReturnStmt? && IsSourceStmt(n)
    ensures var ts := StmtTokens(n) + k; Cur(ts) == RETURN && ParseReturnStmt(ts) == Done(Reparsed(n), [SEMI_COLON] + k)
  {
    hide OptionalTokens, ParseExpr, Reparsed;
    var rest := OptionalTokens(n.result) + ([SEMI_COLON] + k);
    assert StmtTokens(n) + k == [RETURN] + rest;
    Pop(RETURN, rest);
    OptionalParses(n.result, k);
    ReparsedOptional(n, n.result);
  }

  lemma ScanParses(n: ASTNode, k: seq<Token>)
    requires n.ScanStmt? && IsSourceStmt(n)
    ensures var ts := StmtTokens(n) + k; Cur(ts) == SCAN && ParseScanStmt(ts) == Done(Reparsed(n), [SEMI_COLON] + k)
  {
    hide ParseExpr, Reparsed;
    var rest := ExprTokens(n.input) + ([SEMI_COLON] + k);
    assert StmtTokens(n) + k == [SCAN] + rest;
    Pop(SCAN, rest);
    Pop(SEMI_COLON, k);
    ExprParses(n.input, [SEMI_COLON] + k);
    ReparsedIsRebuilt(n.input);
    ReparsedIsRebuilt(n);
    assert ReparsedAll([n.input]) == [Reparsed(n.input)];
  }

  lemma SleepParses(n: ASTNode, k: seq<Token>)
    requires n.SleepStmt? && IsSourceStmt(n)
    ensures var ts := StmtTokens(n) + k; Cur(ts) == SLEEP && ParseSleepStmt(ts) == Done(Reparsed(n), [SEMI_COLON] + k)
  {
    hide ParseExpr, Reparsed, ExprTokens;
    var rest := ExprTokens(n.count) + ([SEMI_COLON] + k);
    assert StmtTokens(n) + k == [SLEEP] + rest;
    Pop(SLEEP, rest);
    Pop(SEMI_COLON, k);
    ExprParses(n.count, [SEMI_COLON] + k);
    ReparsedKeepsKind(n.count);
    ReparsedIsRebuilt(n);
    assert ReparsedAll([n.count]) == [Reparsed(n.count)];
  }

  lemma ExprStmtParses(n: ASTNode, k: seq<Token>)
    requires IsSourceExpr(n) && StartsWithName(n)
    ensures var ts := ExprTokens(n) + [SEMI_COLON] + k;
            Cur(ts).IDENTIFIER? && ParseExpr(ts) == Done(Reparsed(n), [SEMI_COLON] + k)
  {
    hide ParseExpr, Reparsed, ExprTokens;
    assert ExprTokens(n) + [SEMI_COLON] + k == ExprTokens(n) + ([SEMI_COLON] + k);
    Pop(SEMI_COLON, k);
    ExprParses(n, [SEMI_COLON] + k);
    StartsExpr(n, [SEMI_COLON] + k);
  }

  /** Every statement without a block. */
  lemma SimpleStmtParses(n: ASTNode, k: seq<Token>)
    requires IsSourceStmt(n) && !n.IfStmt? && !n.WhileStmt?
    ensures StmtTokens(n) + k != [] && ParseStmt(StmtTokens(n) + k) == Done(Reparsed(n), [SEMI_COLON] + k)
    ensures StartsStmt(Cur(StmtTokens(n) + k))
  {
    hide ParseExpr, Reparsed, ExprTokens, VarTokens, IsSourceExpr, IsSourceVar, StartsWithName, OptionalTokens;
    hide ParseVarDecl, ParsePrintStmt, ParseReturnStmt, ParseScanStmt, ParseSleepStmt;
    if n.VarDecl? {
      VarParses(n, k);
    } else if n.PrintStmt? {
      PrintParses(n, k);
    } else if n.ReturnStmt? {
      ReturnParses(n, k);
    } else if n.ScanStmt? {
      ScanParses(n, k);
    } else if n.SleepStmt? {
      SleepParses(n, k);
    } else {
      ExprStmtParses(n, k);
    }
  }

  predicate StartsStmt(t: Token) {
    t.VAR? || t.IDENTIFIER? || t.IF? || t.WHILE? || t.RETURN? || t.PRINT? || t.SCAN? || t.SLEEP?
  }

  lemma {:induction false} GuardedParses(n: ASTNode, k: seq<Token>)
    requires IsSourceStmt(n) && (n.IfStmt? || n.WhileStmt?)
    ensures var ts := StmtTokens(n) + k;
            && ts != [] && Cur(ts) == (if n.IfStmt? then IF else WHILE)
            && ParseGuarded(ts) == Done(Reparsed(n), [RIGHT_BRACE] + k)
    decreases n, 1
  {
    hide ParseExpr, Reparsed, ExprTokens, BlockTokens, ParseCompoundStmt;
    var first := if n.IfStmt? then IF else WHILE;
    var rest := ExprTokens(n.cond) + (BlockTokens(n.body) + k);
    assert StmtTokens(n) + k == [first] + rest;
    Pop(first, rest);
    BlockParses(n.body, k);
    ExprParses(n.cond, BlockTokens(n.body) + k);
    ReparsedKeepsKind(n.cond);
    ReparsedKeepsKind(n.body);
    ReparsedIsRebuilt(n);
    assert ReparsedAll(n.Children()) == [Reparsed(n.cond), Reparsed(n.body)];
    assert ParseCompoundStmt(BlockTokens(n.body) + k) == Done(Reparsed(n.body), [RIGHT_BRACE] + k);
    assert ParseExpr(rest) == Done(Reparsed(n.cond), BlockTokens(n.body) + k);
    assert !Reparsed(n.cond).Null? && !Reparsed(n.body).Null?;
  }

  lemma {:induction false} StmtParses(n: ASTNode, k: seq<Token>)
    requires IsSourceStmt(n)
    ensures StmtTokens(n) + k != [] && ParseStmt(StmtTokens(n) + k) == Done(Reparsed(n), [LastToken(n)] + k)
    ensures StartsStmt(Cur(StmtTokens(n) + k))
    decreases n, 2
  {
    hide StmtTokens, Reparsed, ParseGuarded, IsSourceStmt, ParseExpr, ParseVarDecl;
    if n.IfStmt? || n.WhileStmt? {
      GuardedParses(n, k);
    } else {
      SimpleStmtParses(n, k);
    }
  }

  lemma {:induction false} BlockParses(n: ASTNode, k: seq<Token>)
    requires IsSourceBlock(n)
    ensures ParseCompoundStmt(BlockTokens(n) + k) == Done(Reparsed(n), [RIGHT_BRACE] + k)
    ensures Cur(BlockTokens(n) + k) == LEFT_BRACE
    decreases n, 0
  {
    hide StmtsTokens, ParseStmts, IsSourceStmt, Reparsed, ReparsedAll;
    var rest := StmtsTokens(n, 0) + ([RIGHT_BRACE] + k);
    assert BlockTokens(n) + k == [LEFT_BRACE] + rest;
    Pop(LEFT_BRACE, rest);
    StmtsParse(n, 0, k);
    ReparsedIsRebuilt(n);
    assert n.stmts[0..] == n.stmts;
  }

  /** A statement in front of others. */
  lemma StmtInFront(ts: seq<Token>, stmt: ASTNode, q: seq<Token>, stmts: seq<ASTNode>, rest: seq<Token>)
    requires ts != [] && StartsStmt(Cur(ts))
    requires ParseStmt(ts) == Done(stmt, q) && ParseStmts(Next(q)) == Done(stmts, rest)
    ensures ParseStmts(ts) == Done([stmt] + stmts, rest)
  {
    hide ParseStmt;
  }

  lemma NoStmts(ts: seq<Token>)
    requires Cur(ts).RIGHT_BRACE?
    ensures ParseStmts(ts) == Done([], ts)
  {
  }

  lemma {:induction false} StmtsParse(n: ASTNode, i: nat, k: seq<Token>)
    requires IsSourceBlock(n) && i <= |n.stmts|
    ensures ParseStmts(StmtsTokens(n, i) + ([RIGHT_BRACE] + k)) == Done(ReparsedAll(n.stmts[i..]), [RIGHT_BRACE] + k)
    decreases n.stmts, |n.stmts| - i
  {
    hide StmtTokens, ParseStmt, ParseStmts, IsSourceStmt, Reparsed, ReparsedAll, Cur, Next;
    if i == |n.stmts| {
      Pop(RIGHT_BRACE, k);
      NoStmts([RIGHT_BRACE] + k);
      assert StmtsTokens(n, i) + ([RIGHT_BRACE] + k) == [RIGHT_BRACE] + k;
      assert n.stmts[i..] == [];
      NoneReparsed();
    } else {
      var stmt, rest := n.stmts[i], StmtsTokens(n, i + 1) + ([RIGHT_BRACE] + k);
      assert StmtsTokens(n, i) + ([RIGHT_BRACE] + k) == StmtTokens(stmt) + rest;
      StmtParses(stmt, rest);
      Pop(LastToken(stmt), rest);
      StmtsParse(n, i + 1, k);
      StmtInFront(StmtTokens(stmt) + rest, Reparsed(stmt), [LastToken(stmt)] + rest, ReparsedAll(n.stmts[i + 1..]),
                  [RIGHT_BRACE] + k);
      ReparsedFirst(n.stmts[i..]);
      assert n.stmts[i..][1..] == n.stmts[i + 1..];
    }
  }

  // ---------- functions and programs ----------

  lemma {:induction false} ParamsParse(params: seq<ASTNode>, k: seq<Token>)
    requires forall i | 0 <= i < |params| :: IsSourceParam(params[i])
    ensures ParseParams(ParamsTokens(params) + ([RIGHT_PAREN] + k)) == Done(Some(ReparsedAll(params)), [RIGHT_PAREN] + k)
    decreases |params|
  {
    hide Reparsed, ReparsedAll, ParseParam;
    Pop(RIGHT_PAREN, k);
    if params == [] {
      assert ParamsTokens(params) + ([RIGHT_PAREN] + k) == [RIGHT_PAREN] + k;
      NoneReparsed();
    } else {
      var p := params[0];
      assert IsSourceParam(p);
      ReparsedFirst(params);
      ParamIsReparsed(p);
      var more := if |params| == 1 then [RIGHT_PAREN] + k else [COMMA] + (ParamsTokens(params[1..]) + ([RIGHT_PAREN] + k));
      assert ParamsTokens(params) + ([RIGHT_PAREN] + k) == ParamTokens(p) + more;
      ParamParses(p, more);
      if |params| == 1 {
        assert params[1..] == [];
        NoneReparsed();
        assert ReparsedAll(params) == [Param(p.name, p.varType, 0)];
      } else {
        Pop(COMMA, ParamsTokens(params[1..]) + ([RIGHT_PAREN] + k));
        ParamsParse(params[1..], k);
      }
    }
  }

  function ParamTokens(p: ASTNode): seq<Token>
    requires IsSourceParam(p)
  {
    [IDENTIFIER(p.name), COLON, TYPE(p.varType)]
  }

  lemma ParamIsReparsed(p: ASTNode)
    requires IsSourceParam(p)
    ensures Reparsed(p) == Param(p.name, p.varType, 0)
  {
    ReparsedOptional(p, Null);
    ReparsedNull(Null);
  }

  lemma ParamParses(p: ASTNode, k: seq<Token>)
    requires IsSourceParam(p) && (Cur(k).RIGHT_PAREN? || Cur(k).COMMA?)
    ensures ParseParam(ParamTokens(p) + k) == Done(Some(Param(p.name, p.varType, 0)), k)
    ensures Cur(ParamTokens(p) + k).IDENTIFIER?
  {
    hide ParseArrayType;
    var t2 := [TYPE(p.varType)] + k;
    var t1 := [COLON] + t2;
    assert ParamTokens(p) + k == [IDENTIFIER(p.name)] + t1;
    Pop(IDENTIFIER(p.name), t1);
    Pop(COLON, t2);
    Pop(TYPE(p.varType), k);
  }

  lemma FunctionParses(n: ASTNode, k: seq<Token>)
    requires n.FunctionDecl? && IsSourceDecl(n)
    ensures ParseFunctionDecl(DeclTokens(n) + k) == Done(Reparsed(n), [RIGHT_BRACE] + k)
    ensures Cur(DeclTokens(n) + k) == FUNCTION
  {
    hide ParseParams, ParamsTokens, ParseCompoundStmt, BlockTokens, DeclTokens;
    hide Reparsed, ReparsedAll, ParseArrayType, IsSourceBlock;
    var params := n.params.parameters;
    var t6 := BlockTokens(n.body) + k;
    var t5 := [TYPE(n.returnType)] + t6;
    var t4 := [ARROW] + t5;
    var t3 := ParamsTokens(params) + ([RIGHT_PAREN] + t4);
    var t2 := [LEFT_PAREN] + t3;
    var t1 := [IDENTIFIER(n.name)] + t2;
    FunctionTokensAre(n, k);
    Pop(FUNCTION, t1);
    Pop(IDENTIFIER(n.name), t2);
    Pop(LEFT_PAREN, t3);
    Pop(RIGHT_PAREN, t4);
    Pop(ARROW, t5);
    Pop(TYPE(n.returnType), t6);
    ParamsParse(params, t4);
    BlockParses(n.body, k);
    FunctionIsReparsed(n);
  }

  lemma FunctionTokensAre(n: ASTNode, k: seq<Token>)
    requires n.FunctionDecl? && IsSourceDecl(n)
    ensures DeclTokens(n) + k
         == [FUNCTION] + ([IDENTIFIER(n.name)] + ([LEFT_PAREN] + (ParamsTokens(n.params.parameters)
            + ([RIGHT_PAREN] + ([ARROW] + ([TYPE(n.returnType)] + (BlockTokens(n.body) + k)))))))
  {
    hide ParamsTokens, BlockTokens, IsSourceBlock;
  }

  lemma FunctionIsReparsed(n: ASTNode)
    requires n.FunctionDecl? && n.params.ParamVarDecls?
    ensures Reparsed(n)
         == FunctionDecl(n.name, n.returnType, ParamVarDecls(ReparsedAll(n.params.parameters)), Reparsed(n.body), DEFAULT_LOCATION)
  {
    hide Reparsed;
    ReparsedIsRebuilt(n);
    ReparsedIsRebuilt(n.params);
    assert ReparsedAll([n.params, n.body]) == [Reparsed(n.params), Reparsed(n.body)];
  }

  lemma DeclParses(n: ASTNode, k: seq<Token>)
    requires IsSourceDecl(n)
    ensures ParseDecl(ErrorNode, DeclTokens(n) + k) == ParseDecl(Null, DeclTokens(n) + k)
    ensures ParseDecl(Null, DeclTokens(n) + k) == Done(Reparsed(n), [if n.VarDecl? then SEMI_COLON else RIGHT_BRACE] + k)
    ensures Cur(DeclTokens(n) + k).VAR? || Cur(DeclTokens(n) + k).FUNCTION?
  {
    hide ParseVarDecl, ParseFunctionDecl, Reparsed, VarTokens, BlockTokens;
    if n.VarDecl? {
      VarParses(n, k);
    } else {
      FunctionParses(n, k);
    }
  }

  lemma {:induction false} DeclsParse(left: ASTNode, decls: seq<ASTNode>)
    requires left == ErrorNode || left == Null
    requires forall i | 0 <= i < |decls| :: IsSourceDecl(decls[i])
    ensures ParseDecls(left, DeclsTokens(decls)) == Done(ReparsedAll(decls), [])
    ensures decls != [] ==> Cur(DeclsTokens(decls)).VAR? || Cur(DeclsTokens(decls)).FUNCTION?
    decreases |decls|
  {
    hide ParseDecl, Reparsed, DeclTokens, ReparsedAll, IsSourceDecl;
    if decls == [] {
      NoneReparsed();
    } else {
      var rest := DeclsTokens(decls[1..]);
      var last := if decls[0].VarDecl? then SEMI_COLON else RIGHT_BRACE;
      DeclParses(decls[0], rest);
      DeclsParse(Null, decls[1..]);
      Pop(last, rest);
      assert SkipToDecl([last] + rest) == rest;
      ReparsedFirst(decls);
    }
  }

  // ---------- the round trip ----------

  /** For every program that can be written down, parsing its tokens gives it back without its
      locations and with every operator nested to the right, all tokens used up. */
  lemma ProgramParses(n: ASTNode)
    requires IsSource(n)
    ensures ParseProgram(ProgramTokens(n)) == Done(Reparsed(n), [])
  {
    hide ParseDecls, DeclsTokens, Reparsed;
    DeclsParse(ErrorNode, n.decls);
    ReparsedIsRebuilt(n);
  }

  /** A tree whose binary left operands are not binary comes back as it was. */
  lemma {:induction false} SimpleIsErased(n: ASTNode)
    requires LeftsAreSimple(n)
    ensures Reparsed(n) == Erased(n)
    decreases n
  {
    hide Rebuilt;
    if n.BinaryExpr? {
      SimpleBinaryIsErased(n);
    } else {
      forall i | 0 <= i < |n.Children()| ensures Reparsed(n.Children()[i]) == Erased(n.Children()[i]) {
        SimpleIsErased(n.Children()[i]);
      }
      assert seq(|n.Children()|, i requires 0 <= i < |n.Children()| => Reparsed(n.Children()[i]))
          == seq(|n.Children()|, i requires 0 <= i < |n.Children()| => Erased(n.Children()[i]));
    }
  }

  lemma {:induction false} SimpleBinaryIsErased(n: ASTNode)
    requires n.BinaryExpr? && LeftsAreSimple(n)
    ensures Reparsed(n) == Erased(n)
    decreases n, 0
  {
    hide LeftsAreSimple;
    ChildIsSimple(n, 0);
    ChildIsSimple(n, 1);
    SimpleIsErased(n.lhs);
    SimpleIsErased(n.rhs);
    LeftIsSimple(n);
    ReparsedKeepsKind(n.lhs);
    ErasedBinary(n);
  }

  lemma ChildIsSimple(n: ASTNode, i: nat)
    requires LeftsAreSimple(n) && i < |n.Children()|
    ensures LeftsAreSimple(n.Children()[i])
  {
  }

  lemma LeftIsSimple(n: ASTNode)
    requires LeftsAreSimple(n) && n.BinaryExpr?
    ensures !n.lhs.BinaryExpr?
  {
  }

  lemma ErasedBinary(n: ASTNode)
    requires n.BinaryExpr?
    ensures Erased(n) == BinaryExpr(n.op, Erased(n.lhs), Erased(n.rhs), DEFAULT_LOCATION)
  {
  }

  function ErasedAll(ns: seq<ASTNode>): seq<ASTNode> {
    seq(|ns|, i requires 0 <= i < |ns| => Erased(ns[i]))
  }

  lemma ErasedIsRebuilt(n: ASTNode)
    ensures Erased(n) == Rebuilt(n, ErasedAll(n.Children()))
  {
  }

  lemma RebuiltIsInjective(n: ASTNode, a: seq<ASTNode>, b: seq<ASTNode>)
    requires |a| == |b| == |n.Children()| && Rebuilt(n, a) == Rebuilt(n, b)
    ensures a == b
  {
    assert |a| == 1 ==> a == [a[0]] && b == [b[0]];
    assert |a| == 2 ==> a == [a[0], a[1]] && b == [b[0], b[1]];
  }

  /** The parser never builds a binary left operand. */
  lemma {:induction false} ReparsedLeft(n: ASTNode)
    requires n.BinaryExpr?
    ensures Reparsed(n).BinaryExpr? && !Reparsed(n).lhs.BinaryExpr?
    decreases n
  {
    ReparsedKeepsKind(n.lhs);
    if n.lhs.BinaryExpr? {
      ReparsedLeft(n.lhs);
    }
  }

  /** The parser's nesting is the tree's own only if no binary left operand is binary. */
  lemma {:induction false} ErasedIsSimple(n: ASTNode)
    requires Reparsed(n) == Erased(n)
    ensures LeftsAreSimple(n)
    decreases n
  {
    hide Rebuilt, Reparsed, Erased;
    if n.BinaryExpr? {
      BinaryIsSimple(n);
      ErasedIsSimple(n.lhs);
      ErasedIsSimple(n.rhs);
    } else {
      ReparsedIsRebuilt(n);
      ErasedIsRebuilt(n);
      RebuiltIsInjective(n, ReparsedAll(n.Children()), ErasedAll(n.Children()));
      forall i | 0 <= i < |n.Children()| ensures LeftsAreSimple(n.Children()[i]) {
        assert ReparsedAll(n.Children())[i] == ErasedAll(n.Children())[i];
        ErasedIsSimple(n.Children()[i]);
      }
    }
  }

  lemma BinaryIsSimple(n: ASTNode)
    requires n.BinaryExpr? && Reparsed(n) == Erased(n)
    ensures !n.lhs.BinaryExpr? && Reparsed(n.lhs) == Erased(n.lhs) && Reparsed(n.rhs) == Erased(n.rhs)
  {
    ErasedBinary(n);
    ReparsedLeft(n);
    ReparsedKeepsKind(n.lhs);
    if n.lhs.BinaryExpr? {
      ErasedBinary(n.lhs);
    }
  }

  /** For every program that can be written down: parsing its tokens gives the same program,
      locations apart, if and only if no binary left operand in it is itself binary. */
  lemma RoundTripExactly(n: ASTNode)
    requires IsSource(n)
    ensures ParseProgram(ProgramTokens(n)) == Done(Erased(n), []) <==> LeftsAreSimple(n)
  {
    hide Reparsed, Erased, ParseProgram;
    ProgramParses(n);
    if LeftsAreSimple(n) {
      SimpleIsErased(n);
    }
    if Reparsed(n) == Erased(n) {
      ErasedIsSimple(n);
    }
  }

  function Name(name: string): ASTNode { IdentifierExpr(name, DEFAULT_LOCATION) }

  function Minus(lhs: ASTNode, rhs: ASTNode): ASTNode { BinaryExpr(MINUS, lhs, rhs, DEFAULT_LOCATION) }

  /** Subtraction does not associate to the left: `a - b - c` is read as `a - (b - c)`. */
  lemma SubtractionNestsRight(a: string, b: string, c: string, k: seq<Token>)
    requires IsTerminator(Cur(k))
    ensures var left := Minus(Minus(Name(a), Name(b)), Name(c));
            && IsSourceExpr(left)
            && ParseExpr(ExprTokens(left) + k) == Done(Minus(Name(a), Minus(Name(b), Name(c))), k)
  {
    hide ParseExpr;
    var inner := Minus(Name(a), Name(b));
    assert IsSourceExpr(inner);
    ExprParses(Minus(inner, Name(c)), k);
    assert Reparsed(Name(a)) == Name(a) && Reparsed(Name(b)) == Name(b) && Reparsed(Name(c)) == Name(c);
    assert Reparsed(inner) == inner;
    assert Reparsed(Minus(inner, Name(c))) == Graft(inner, MINUS, Name(c));
    assert Graft(Name(b), MINUS, Name(c)) == Minus(Name(b), Name(c));
  }

  /** What the brackets behind a scalar type must hold to spell an array type. */
  predicate SpellsSize(ts: seq<Token>) {
    |ts| >= 2 && ts[0].NUMBER? && ts[0].value > 0 && ts[1].RIGHT_BRACKET?
  }

  /** A parameter with an array type is accepted exactly when the type is not spelled correctly;
      a variable with it is rejected then. */
  lemma ArrayParametersAreInverted(name: string, ty: Type, k: seq<Token>)
    requires IsScalar(ty)
    ensures var declared := [IDENTIFIER(name), COLON, TYPE(ty), LEFT_BRACKET] + k;
            && ParseParam(declared).Done? && (ParseParam(declared).value.None? <==> SpellsSize(k))
            && (!SpellsSize(k) ==> ParseVarDecl([VAR] + declared).Done? && ParseVarDecl([VAR] + declared).value == ErrorNode)
  {
    hide ParseParam, ParseVarDecl;
    var t4 := [LEFT_BRACKET] + k;
    var t3 := [TYPE(ty)] + t4;
    var t2 := [COLON] + t3;
    var declared := [IDENTIFIER(name)] + t2;
    assert declared == [IDENTIFIER(name), COLON, TYPE(ty), LEFT_BRACKET] + k;
    Pop(VAR, declared);
    Pop(IDENTIFIER(name), t2);
    Pop(COLON, t3);
    Pop(TYPE(ty), t4);
    BracketBehindType(declared, ty, k);
  }

  lemma BracketBehindType(ts: seq<Token>, ty: Type, k: seq<Token>)
    requires IsScalar(ty) && Cur(ts).IDENTIFIER? && Cur(Next(ts)) == COLON && Cur(Next(Next(ts))) == TYPE(ty)
    requires Next(Next(Next(ts))) == [LEFT_BRACKET] + k
    ensures ParseParam(ts).Done? && (ParseParam(ts).value.None? <==> SpellsSize(k))
    ensures Next([VAR] + ts) == ts && !SpellsSize(k) ==>
              ParseVarDecl([VAR] + ts).Done? && ParseVarDecl([VAR] + ts).value == ErrorNode
  {
    Pop(LEFT_BRACKET, k);
    SizeIsRead(ty, k);
    hide ParseInit, ParseArrayType, SpellsSize, Cur, Next;
  }

  /** Where reading the size between the brackets stops. */
  function BehindSize(k: seq<Token>): seq<Token> {
    if !Cur(k).NUMBER? || Cur(k).value == 0 then k
    else if !Cur(Next(k)).RIGHT_BRACKET? then Next(k)
    else Next(Next(k))
  }

  /** The size that is kept. */
  function SizeOf(k: seq<Token>): nat {
    if Cur(k).NUMBER? then Cur(k).value else 0
  }

  lemma SizeIsRead(ty: Type, k: seq<Token>)
    requires IsScalar(ty)
    ensures var r := ParseArrayType([LEFT_BRACKET] + k, ty);
            && r.Done? && r.rest == BehindSize(k) && Some(r.value.ty) == ArrayVersion(ty)
            && (r.value.ok <==> SpellsSize(k)) && r.value.size == SizeOf(k)
  {
    Pop(LEFT_BRACKET, k);
    if k != [] {
      assert Next(k) == k[1..];
    }
  }

  /** A function up to the arrow before its result, and what is left. */
  function Header(name: string, params: seq<ASTNode>, k: seq<Token>): seq<Token>
    requires forall i | 0 <= i < |params| :: IsSourceParam(params[i])
  {
    [FUNCTION] + ([IDENTIFIER(name)] + ([LEFT_PAREN] + (ParamsTokens(params) + ([RIGHT_PAREN] + k))))
  }

  /** A function up to a place among its parameters, and what is left. */
  function Opening(name: string, params: seq<ASTNode>, k: seq<Token>): seq<Token>
    requires forall i | 0 <= i < |params| :: IsSourceParam(params[i])
  {
    [FUNCTION] + ([IDENTIFIER(name)] + ([LEFT_PAREN] + Before(params, k)))
  }

  function Before(params: seq<ASTNode>, k: seq<Token>): seq<Token>
    requires forall i | 0 <= i < |params| :: IsSourceParam(params[i])
  {
    if params == [] then k else ParamsTokens(params) + ([COMMA] + k)
  }

  /** The function with the parameters `params` and those read next. */
  function Completed(name: string, params: seq<ASTNode>, more: Parse<Option<seq<ASTNode>>>): Parse<ASTNode> {
    match more
    case Done(Some(others), q) => ParseReturnType(name, params + others, Next(q))
    case Done(None, q) => Done(ErrorNode, q)
    case Aborted => Aborted
  }

  /** A function with a parameter of array type becomes an error node where reading the type stopped
      if the type is spelled correctly. It goes on with the parameter exactly when a parenthesis or
      comma takes the place of the bracket, or of size and bracket. */
  lemma ArrayParametersSpoilFunctions(name: string, params: seq<ASTNode>, p: string, ty: Type, k: seq<Token>)
    requires IsScalar(ty) && forall i | 0 <= i < |params| :: IsSourceParam(params[i])
    ensures var declared := [IDENTIFIER(p)] + ([COLON] + ([TYPE(ty)] + ([LEFT_BRACKET] + k)));
            var r, q := ParseFunctionDecl(Opening(name, params, declared)), BehindSize(k);
            && (SpellsSize(k) || !(Cur(q).RIGHT_PAREN? || Cur(q).COMMA?) ==> r == Done(ErrorNode, q))
            && (!SpellsSize(k) && (Cur(q).RIGHT_PAREN? || Cur(q).COMMA?) ==>
                 r == Completed(name, ReparsedAll(params) + [Param(p, ArrayVersion(ty).value, SizeOf(k))],
                                if Cur(q).COMMA? then ParseParams(Next(q)) else Done(Some([]), q)))
  {
    hide ParseReturnType, ParseParams, ParseParam, ParamsTokens, ReparsedAll, SpellsSize, BehindSize;
    var t3 := [TYPE(ty)] + ([LEFT_BRACKET] + k);
    var t2 := [COLON] + t3;
    var declared := [IDENTIFIER(p)] + t2;
    Pop(IDENTIFIER(p), t2);
    OpeningParses(name, params, declared);
    ArrayParameterIsRead(p, ty, k);
    var q, param := BehindSize(k), Param(p, ArrayVersion(ty).value, SizeOf(k));
    PrependedIsCompleted(name, ReparsedAll(params), param, if Cur(q).COMMA? then ParseParams(Next(q)) else Done(Some([]), q));
  }

  lemma PrependedIsCompleted(name: string, params: seq<ASTNode>, p: ASTNode, more: Parse<Option<seq<ASTNode>>>)
    ensures Completed(name, params, Prepend(p, more)) == Completed(name, params + [p], more)
  {
    if more.Done? && more.value.Some? {
      assert params + ([p] + more.value.value) == params + [p] + more.value.value;
    }
  }

  lemma OpeningParses(name: string, params: seq<ASTNode>, k: seq<Token>)
    requires (forall i | 0 <= i < |params| :: IsSourceParam(params[i])) && Cur(k).IDENTIFIER?
    ensures ParseFunctionDecl(Opening(name, params, k)) == Completed(name, ReparsedAll(params), ParseParams(k))
  {
    hide ParseReturnType, ParseParams, Before, ReparsedAll;
    var t3 := Before(params, k);
    var t2 := [LEFT_PAREN] + t3;
    var t1 := [IDENTIFIER(name)] + t2;
    Pop(FUNCTION, t1);
    Pop(IDENTIFIER(name), t2);
    Pop(LEFT_PAREN, t3);
    ParamsContinue(params, k);
  }

  function Behind(params: seq<ASTNode>, more: Parse<Option<seq<ASTNode>>>): Parse<Option<seq<ASTNode>>> {
    match more
    case Done(Some(others), q) => Done(Some(params + others), q)
    case _ => more
  }

  lemma {:induction false} ParamsContinue(params: seq<ASTNode>, k: seq<Token>)
    requires (forall i | 0 <= i < |params| :: IsSourceParam(params[i])) && Cur(k).IDENTIFIER?
    ensures ParseParams(Before(params, k)) == Behind(ReparsedAll(params), ParseParams(k))
    decreases |params|
  {
    if params == [] {
      hide ParseParams;
      NoneReparsed();
      if ParseParams(k).Done? && ParseParams(k).value.Some? {
        assert [] + ParseParams(k).value.value == ParseParams(k).value.value;
      }
    } else {
      hide Reparsed, ReparsedAll, ParseParam, ParseParams, ParamTokens, Before, IsSourceParam;
      assert IsSourceParam(params[0]);
      FirstParam(params, k);
      ParamsContinue(params[1..], k);
      ReparsedFirst(params);
      BehindFirst(Reparsed(params[0]), ReparsedAll(params[1..]), ParseParams(k));
    }
  }

  lemma FirstParam(params: seq<ASTNode>, k: seq<Token>)
    requires params != [] && (forall i | 0 <= i < |params| :: IsSourceParam(params[i]))
    ensures ParseParams(Before(params, k)) == Prepend(Reparsed(params[0]), ParseParams(Before(params[1..], k)))
  {
    var first, next := params[0], Before(params[1..], k);
    BeforeFirst(params, k);
    hide Reparsed, ParseParam, ParseParams, Before;
    assert IsSourceParam(first);
    Pop(COMMA, next);
    ParamIsReparsed(first);
    ParamParses(first, [COMMA] + next);
    ParamThenComma(ParamTokens(first) + ([COMMA] + next), Param(first.name, first.varType, 0), next);
  }

  lemma BeforeFirst(params: seq<ASTNode>, k: seq<Token>)
    requires params != [] && (forall i | 0 <= i < |params| :: IsSourceParam(params[i]))
    ensures Before(params, k) == ParamTokens(params[0]) + ([COMMA] + Before(params[1..], k))
  {
    assert IsSourceParam(params[0]);
    var head := ParamTokens(params[0]);
    if |params| == 1 {
      assert ParamsTokens(params) == head;
    } else {
      var tail := ParamsTokens(params[1..]);
      assert ParamsTokens(params) == head + ([COMMA] + tail);
      hide ParamsTokens, ParamTokens;
      assert head + ([COMMA] + tail) + ([COMMA] + k) == head + ([COMMA] + (tail + ([COMMA] + k)));
    }
  }

  lemma BehindFirst(first: ASTNode, params: seq<ASTNode>, more: Parse<Option<seq<ASTNode>>>)
    ensures Prepend(first, Behind(params, more)) == Behind([first] + params, more)
  {
    if more.Done? && more.value.Some? {
      assert [first] + (params + more.value.value) == [first] + params + more.value.value;
    }
  }

  lemma ParamThenComma(ts: seq<Token>, p: ASTNode, next: seq<Token>)
    requires Cur(ts).IDENTIFIER? && ParseParam(ts) == Done(Some(p), [COMMA] + next)
    ensures ParseParams(ts) == Prepend(p, ParseParams(next))
  {
    hide ParseParam;
    Pop(COMMA, next);
  }

  lemma ArrayParameterIsRead(p: string, ty: Type, k: seq<Token>)
    requires IsScalar(ty)
    ensures var declared := [IDENTIFIER(p)] + ([COLON] + ([TYPE(ty)] + ([LEFT_BRACKET] + k)));
            var q := BehindSize(k);
            && (SpellsSize(k) || !(Cur(q).RIGHT_PAREN? || Cur(q).COMMA?) ==> ParseParams(declared) == Done(None, q))
            && (!SpellsSize(k) && (Cur(q).RIGHT_PAREN? || Cur(q).COMMA?) ==>
                 ParseParams(declared) == Prepend(Param(p, ArrayVersion(ty).value, SizeOf(k)),
                                                  if Cur(q).COMMA? then ParseParams(Next(q)) else Done(Some([]), q)))
  {
    var t4 := [LEFT_BRACKET] + k;
    var t3 := [TYPE(ty)] + t4;
    var t2 := [COLON] + t3;
    var declared := [IDENTIFIER(p)] + t2;
    Pop(IDENTIFIER(p), t2);
    Pop(COLON, t3);
    Pop(TYPE(ty), t4);
    Pop(LEFT_BRACKET, k);
    SizeIsRead(ty, k);
    hide Cur, Next, ParseArrayType, SpellsSize, BehindSize, SizeOf;
    var param := if SpellsSize(k) then None else Some(Param(p, ArrayVersion(ty).value, SizeOf(k)));
    assert ParseParam(declared) == Done(param, BehindSize(k));
    hide ParseParam;
    if Cur(BehindSize(k)).RIGHT_PAREN? && !SpellsSize(k) {
      assert [param.value] + [] == [param.value];
    }
  }

  /** A function whose result has an array type becomes an error node exactly when the type is
      spelled correctly; otherwise its body is parsed from where reading the type stopped. */
  lemma ArrayResultsAreInverted(name: string, params: seq<ASTNode>, ty: Type, k: seq<Token>)
    requires IsScalar(ty) && forall i | 0 <= i < |params| :: IsSourceParam(params[i])
    ensures var result := [ARROW] + ([TYPE(ty)] + ([LEFT_BRACKET] + k));
            var r := ParseFunctionDecl(Header(name, params, result));
            && r == ParseReturnType(name, ReparsedAll(params), result)
            && (SpellsSize(k) <==> r == Done(ErrorNode, BehindSize(k)))
            && (!SpellsSize(k) <==> r == ParseBody(name, ArrayVersion(ty).value, ReparsedAll(params), BehindSize(k)))
  {
    hide ParseReturnType, Header, ParseFunctionDecl, SpellsSize, BehindSize, ReparsedAll, ParseBody;
    var result := [ARROW] + ([TYPE(ty)] + ([LEFT_BRACKET] + k));
    HeaderParses(name, params, result);
    ResultIsInverted(name, ReparsedAll(params), ty, k);
    BodyIsNoError(name, ArrayVersion(ty).value, ReparsedAll(params), BehindSize(k));
  }

  lemma HeaderParses(name: string, params: seq<ASTNode>, k: seq<Token>)
    requires forall i | 0 <= i < |params| :: IsSourceParam(params[i])
    ensures ParseFunctionDecl(Header(name, params, k)) == ParseReturnType(name, ReparsedAll(params), k)
  {
    hide ParseReturnType, ParseParams, ParamsTokens, ReparsedAll;
    var t3 := ParamsTokens(params) + ([RIGHT_PAREN] + k);
    var t2 := [LEFT_PAREN] + t3;
    var t1 := [IDENTIFIER(name)] + t2;
    Pop(FUNCTION, t1);
    Pop(IDENTIFIER(name), t2);
    Pop(LEFT_PAREN, t3);
    Pop(RIGHT_PAREN, k);
    ParamsParse(params, k);
  }

  lemma BodyIsNoError(name: string, ty: Type, params: seq<ASTNode>, ts: seq<Token>)
    ensures ParseBody(name, ty, params, ts).Done? ==> ParseBody(name, ty, params, ts).value.FunctionDecl?
  {
    hide ParseCompoundStmt;
  }

  lemma ResultIsInverted(name: string, params: seq<ASTNode>, ty: Type, k: seq<Token>)
    requires IsScalar(ty)
    ensures ParseReturnType(name, params, [ARROW] + ([TYPE(ty)] + ([LEFT_BRACKET] + k)))
         == if SpellsSize(k) then Done(ErrorNode, BehindSize(k))
            else ParseBody(name, ArrayVersion(ty).value, params, BehindSize(k))
  {
    var t2 := [LEFT_BRACKET] + k;
    var t1 := [TYPE(ty)] + t2;
    Pop(ARROW, t1);
    Pop(TYPE(ty), t2);
    Pop(LEFT_BRACKET, k);
    SizeIsRead(ty, k);
    hide ParseArrayType, ParseBody, SpellsSize, BehindSize, Cur, Next;
  }
}
