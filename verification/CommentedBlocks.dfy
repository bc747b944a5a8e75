/** Comments inside blocks: they may stand before any statement and before the closing brace, at
    every depth, and the parser makes the same tree. */
module CommentedBlocks {
  import opened Ast
  import opened Tokens
  import opened Spelling
  import opened Parsing
  import opened ParserRoundTrip

  predicate AreComments(ts: seq<Token>) {
    forall i :: 0 <= i < |ts| ==> ts[i].COMMENT? || ts[i].ML_COMMENT?
  }

  /** Comment tokens inside a block change neither the statements that follow nor the end. */
  lemma {:induction false} CommentsAreSkipped(comments: seq<Token>, ts: seq<Token>)
    requires AreComments(comments)
    ensures ParseStmts(comments + ts) == ParseStmts(ts)
    decreases |comments|
  {
    if comments == [] {
      assert comments + ts == ts;
    } else {
      var rest := comments[1..] + ts;
      assert comments + ts == [comments[0]] + rest;
      Pop(comments[0], rest);
      CommentsAreSkipped(comments[1..], ts);
      OneIsSkipped(comments[0], rest);
    }
  }

  lemma OneIsSkipped(comment: Token, ts: seq<Token>)
    requires comment.COMMENT? || comment.ML_COMMENT?
    ensures ParseStmts([comment] + ts) == ParseStmts(ts)
  {
    Pop(comment, ts);
  }

  /** `ts` spells the statements of a block from the `i`-th on, with comments. */
  ghost predicate SpellsStmts(ts: seq<Token>, n: ASTNode, i: nat)
    requires IsSourceBlock(n) && i <= |n.stmts|
    decreases n.stmts, |n.stmts| - i
  {
    if i == |n.stmts| then AreComments(ts)
    else exists a: nat, b: nat | a <= b <= |ts| ::
           AreComments(ts[..a]) && SpellsStmt(ts[a..b], n.stmts[i]) && SpellsStmts(ts[b..], n, i + 1)
  }

  ghost predicate SpellsStmt(ts: seq<Token>, n: ASTNode)
    requires IsSourceStmt(n)
    decreases n, 1
  {
    if n.IfStmt? || n.WhileStmt? then
      var head := [if n.IfStmt? then IF else WHILE] + ExprTokens(n.cond) + [LEFT_BRACE];
      && |head| < |ts| && ts[..|head|] == head && ts[|ts| - 1] == RIGHT_BRACE
      && SpellsStmts(ts[|head|..|ts| - 1], n.body, 0)
    else ts == StmtTokens(n)
  }

  /** A block with comments is parsed as the block without them. */
  lemma {:induction false} CommentedStmtsParse(ts: seq<Token>, n: ASTNode, i: nat, k: seq<Token>)
    requires IsSourceBlock(n) && i <= |n.stmts| && SpellsStmts(ts, n, i)
    ensures ParseStmts(ts + ([RIGHT_BRACE] + k)) == Done(ReparsedAll(n.stmts[i..]), [RIGHT_BRACE] + k)
    decreases n.stmts, |n.stmts| - i
  {
    hide SpellsStmt, ParseStmt, ParseStmts, IsSourceStmt, Reparsed, ReparsedAll, Cur, Next, AreComments;
    var end := [RIGHT_BRACE] + k;
    if i == |n.stmts| {
      CommentsAreSkipped(ts, end);
      Pop(RIGHT_BRACE, k);
      NoStmts(end);
      assert n.stmts[i..] == [];
      NoneReparsed();
    } else {
      var stmt := n.stmts[i];
      var a: nat, b: nat :| a <= b <= |ts| && AreComments(ts[..a]) && SpellsStmt(ts[a..b], stmt) && SpellsStmts(ts[b..], n, i + 1);
      var rest := ts[b..] + end;
      assert ts + end == ts[..a] + (ts[a..b] + rest);
      CommentsAreSkipped(ts[..a], ts[a..b] + rest);
      CommentedStmtParses(ts[a..b], stmt, rest);
      Pop(LastToken(stmt), rest);
      CommentedStmtsParse(ts[b..], n, i + 1, k);
      StmtInFront(ts[a..b] + rest, Reparsed(stmt), [LastToken(stmt)] + rest, ReparsedAll(n.stmts[i + 1..]), end);
      ReparsedFirst(n.stmts[i..]);
      assert n.stmts[i..][1..] == n.stmts[i + 1..];
    }
  }

  lemma {:induction false} CommentedStmtParses(ts: seq<Token>, n: ASTNode, k: seq<Token>)
    requires IsSourceStmt(n) && SpellsStmt(ts, n)
    ensures ts + k != [] && ParseStmt(ts + k) == Done(Reparsed(n), [LastToken(n)] + k)
    ensures StartsStmt(Cur(ts + k))
    decreases n, 2
  {
    hide StmtTokens, Reparsed, ParseGuarded, IsSourceStmt, ParseExpr, ParseVarDecl;
    if n.IfStmt? || n.WhileStmt? {
      CommentedGuardedParses(ts, n, k);
    } else {
      SimpleStmtParses(n, k);
    }
  }

  lemma GuardedTokens(ts: seq<Token>, first: Token, cond: seq<Token>, k: seq<Token>)
    requires var head := [first] + cond + [LEFT_BRACE];
             |head| < |ts| && ts[..|head|] == head && ts[|ts| - 1] == RIGHT_BRACE
    ensures var body := ts[|cond| + 2..|ts| - 1];
            ts + k == [first] + (cond + ([LEFT_BRACE] + (body + ([RIGHT_BRACE] + k))))
  {
    var head := [first] + cond + [LEFT_BRACE];
    assert ts == head + ts[|head|..|ts| - 1] + [RIGHT_BRACE];
  }

  /** The tokens of a statement with a block, from its inside. */
  lemma {:induction false} CommentedGuardedParses(ts: seq<Token>, n: ASTNode, k: seq<Token>)
    requires IsSourceStmt(n) && (n.IfStmt? || n.WhileStmt?) && SpellsStmt(ts, n)
    ensures ts + k != [] && Cur(ts + k) == (if n.IfStmt? then IF else WHILE)
    ensures ParseGuarded(ts + k) == Done(Reparsed(n), [RIGHT_BRACE] + k)
    decreases n, 1
  {
    hide ParseExpr, ParseGuarded, Reparsed, ExprTokens, ParseStmts, SpellsStmts, ReparsedAll, Cur;
    var first, cond := if n.IfStmt? then IF else WHILE, ExprTokens(n.cond);
    var body := ts[|cond| + 2..|ts| - 1];
    assert |[first] + cond + [LEFT_BRACE]| == |cond| + 2;
    GuardedTokens(ts, first, cond, k);
    CommentedStmtsParse(body, n.body, 0, k);
    assert n.body.stmts[0..] == n.body.stmts;
    GuardedFromParts(n, first, body + ([RIGHT_BRACE] + k), k);
  }

  lemma GuardedFromParts(n: ASTNode, first: Token, inside: seq<Token>, k: seq<Token>)
    requires (n.IfStmt? && first == IF) || (n.WhileStmt? && first == WHILE)
    requires IsSourceExpr(n.cond) && n.body.CompoundStmt?
    requires ParseStmts(inside) == Done(ReparsedAll(n.body.stmts), [RIGHT_BRACE] + k)
    ensures var ts := [first] + (ExprTokens(n.cond) + ([LEFT_BRACE] + inside));
            Cur(ts) == first && ParseGuarded(ts) == Done(Reparsed(n), [RIGHT_BRACE] + k)
  {
    hide ParseExpr, Reparsed, ExprTokens, ParseStmts, ReparsedAll, Cur, Next;
    var block := [LEFT_BRACE] + inside;
    Pop(first, ExprTokens(n.cond) + block);
    Pop(LEFT_BRACE, inside);
    assert ParseCompoundStmt(block) == Done(CompoundStmt(ReparsedAll(n.body.stmts)), [RIGHT_BRACE] + k);
    hide ParseCompoundStmt;
    ExprParses(n.cond, block);
    GuardedIsReparsed(n);
    ReparsedKeepsKind(n.cond);
  }

  lemma GuardedIsReparsed(n: ASTNode)
    requires n.IfStmt? || n.WhileStmt?
    requires n.body.CompoundStmt?
    ensures Reparsed(n) == if n.IfStmt? then IfStmt(Reparsed(n.cond), CompoundStmt(ReparsedAll(n.body.stmts)), DEFAULT_LOCATION)
                           else WhileStmt(Reparsed(n.cond), CompoundStmt(ReparsedAll(n.body.stmts)), DEFAULT_LOCATION)
  {
    hide Reparsed;
    ReparsedIsRebuilt(n);
    ReparsedIsRebuilt(n.body);
    assert ReparsedAll(n.Children()) == [Reparsed(n.cond), Reparsed(n.body)];
  }

  /** Whatever comments a block holds, at any depth, it is read as the block spelled without. */
  lemma CommentsChangeNothing(ts: seq<Token>, n: ASTNode, k: seq<Token>)
    requires IsSourceBlock(n) && SpellsStmts(ts, n, 0)
    ensures ParseCompoundStmt([LEFT_BRACE] + ts + [RIGHT_BRACE] + k) == ParseCompoundStmt(BlockTokens(n) + k)
  {
    hide ParseStmts, SpellsStmts, BlockTokens, Reparsed, ReparsedAll;
    var inside := ts + ([RIGHT_BRACE] + k);
    assert [LEFT_BRACE] + ts + [RIGHT_BRACE] + k == [LEFT_BRACE] + inside;
    Pop(LEFT_BRACE, inside);
    CommentedStmtsParse(ts, n, 0, k);
    BlockParses(n, k);
    ReparsedIsRebuilt(n);
    assert n.stmts[0..] == n.stmts;
  }
}
