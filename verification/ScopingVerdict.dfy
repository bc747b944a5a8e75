/** When the collector's verdict is that of lexical scoping: exactly on the programs that
    declare the variables of each scope before its first nested block. */
module ScopingVerdict {
  import opened Ast
  import opened LexicalScoping

  predicate OpensBlock(n: ASTNode) {
    n.CompoundStmt? || n.IfStmt? || n.WhileStmt? || n.FunctionDecl?
  }

  /** In no scope does a variable declaration follow a block, a function included. */
  predicate VarsFirst(n: ASTNode)
    decreases n
  {
    match n
    case ProgramDecl(decls) => Ordered(decls) && forall i | 0 <= i < |decls| :: VarsFirst(decls[i])
    case FunctionDecl(_, _, _, body, _) => VarsFirst(body)
    case CompoundStmt(stmts) => Ordered(stmts) && forall i | 0 <= i < |stmts| :: VarsFirst(stmts[i])
    case IfStmt(_, body, _) => VarsFirst(body)
    case WhileStmt(_, body, _) => VarsFirst(body)
    case _ => true
  }

  predicate Ordered(ns: seq<ASTNode>) {
    forall i, j | 0 <= i < j < |ns| :: OpensBlock(ns[i]) ==> !ns[j].VarDecl?
  }

  predicate BlockBefore(ns: seq<ASTNode>, i: nat)
    requires i <= |ns|
  {
    exists j | 0 <= j < i :: OpensBlock(ns[j])
  }

  // ---------- misplaced declarations ----------

  lemma {:induction false} ExprPlacesNothing(n: ASTNode, id: NodeId, env: Env)
    ensures CheckExpr(n, id, env).misplaced == 0
    decreases n, |n.Children()| + 1
  {
    hide CheckChildren, Resolve, FunctionsNamed;
    ChildrenPlaceNothing(n, 0, id, env);
  }

  lemma {:induction false} ChildrenPlaceNothing(n: ASTNode, i: nat, id: NodeId, env: Env)
    requires i <= |n.Children()|
    ensures CheckChildren(n, i, id, env).misplaced == 0
    decreases n, |n.Children()| - i
  {
    hide CheckExpr, ASTNode.Children;
    if i < |n.Children()| {
      ExprPlacesNothing(n.Children()[i], id + [i], env);
      ChildrenPlaceNothing(n, i + 1, id, env);
    }
  }

  lemma VarMisplaced(n: ASTNode, id: NodeId, env: Env)
    requires n.VarDecl? && env.scopes != []
    ensures CheckVar(AsCoded, n, id, env).1.misplaced == 0 <==> !env.stale
    ensures CheckVar(AsCoded, n, id, env).0.stale == env.stale
  {
    hide CheckChildren;
    ChildrenPlaceNothing(n, 0, id, DeclareVar(AsCoded, n.name, id, env).0);
  }

  /** A statement misplaces nothing exactly when its variables come first and it is not itself
      a declaration made too late; afterwards a block has been closed iff it contains one. */
  lemma {:induction false} StmtMisplaced(n: ASTNode, id: NodeId, env: Env)
    requires IsStmt(n) && env.scopes != []
    ensures CheckStmt(AsCoded, n, id, env).1.misplaced == 0 <==> VarsFirst(n) && (n.VarDecl? ==> !env.stale)
    ensures CheckStmt(AsCoded, n, id, env).0.stale <==> env.stale || OpensBlock(n)
    decreases n, 1
  {
    hide CheckBlock, CheckVar, CheckExpr;
    if n.VarDecl? {
      VarMisplaced(n, id, env);
    } else if n.CompoundStmt? {
      BlockMisplaced(n, id, env, map[]);
    } else if n.IfStmt? || n.WhileStmt? {
      ExprPlacesNothing(n.cond, id + [0], env);
      StmtMisplaced(n.body, id + [1], env);
    } else {
      ExprPlacesNothing(n, id, env);
    }
  }

  lemma {:induction false} BlockMisplaced(n: ASTNode, id: NodeId, env: Env, scope: map<string, NodeId>)
    requires IsBlock(n) && env.scopes != []
    ensures CheckBlock(AsCoded, n, id, env, scope).1.misplaced == 0 <==> VarsFirst(n)
    decreases n, 0
  {
    hide CheckStmts, IsStmt;
    StmtsMisplaced(n, 0, id, Opened(env, scope));
  }

  lemma {:induction false} StmtsMisplaced(n: ASTNode, i: nat, id: NodeId, env: Env)
    requires IsBlock(n) && i <= |n.stmts| && env.scopes != []
    requires env.stale <==> BlockBefore(n.stmts, i)
    ensures CheckStmts(AsCoded, n, i, id, env).1.misplaced == 0 <==>
              forall j | i <= j < |n.stmts| :: VarsFirst(n.stmts[j]) && (n.stmts[j].VarDecl? ==> !BlockBefore(n.stmts, j))
    decreases n.stmts, |n.stmts| - i
  {
    hide CheckStmt, VarsFirst, OpensBlock, IsStmt;
    if i < |n.stmts| {
      StmtMisplaced(n.stmts[i], id + [i], env);
      StmtsMisplaced(n, i + 1, id, CheckStmt(AsCoded, n.stmts[i], id + [i], env).0);
    }
  }

  lemma DeclMisplaced(n: ASTNode, id: NodeId, env: Env)
    requires IsDecl(n) && env.scopes != []
    ensures CheckDecl(AsCoded, n, id, env).1.misplaced == 0 <==> VarsFirst(n) && (n.VarDecl? ==> !env.stale)
    ensures CheckDecl(AsCoded, n, id, env).0.stale <==> env.stale || OpensBlock(n)
  {
    hide CheckBlock, CheckVar, CheckParams, IsExpr, IsStmt;
    if n.FunctionDecl? {
      var (mid, own) := DeclareFunction(n, id, env);
      var (scope, params) := CheckParams(n.params, 0, id + [0], map[]);
      ParamsPlaceNothing(n.params, 0, id + [0], map[]);
      BlockMisplaced(n.body, id + [1], mid, scope);
    } else if n.VarDecl? {
      VarMisplaced(n, id, env);
    }
  }

  lemma {:induction false} ParamsPlaceNothing(n: ASTNode, i: nat, id: NodeId, scope: map<string, NodeId>)
    requires n.ParamVarDecls? && i <= |n.parameters|
    requires forall j | 0 <= j < |n.parameters| :: n.parameters[j].VarDecl?
    ensures CheckParams(n, i, id, scope).1.misplaced == 0
    decreases |n.parameters| - i
  {
    if i < |n.parameters| {
      ParamsPlaceNothing(n, i + 1, id, Declare(scope, n.parameters[i].name, id + [i]).0);
    }
  }

  lemma {:induction false} DeclsMisplaced(n: ASTNode, i: nat, id: NodeId, env: Env)
    requires IsProgram(n) && i <= |n.decls| && env.scopes != []
    requires env.stale <==> BlockBefore(n.decls, i)
    ensures CheckDecls(AsCoded, n, i, id, env).1.misplaced == 0 <==>
              forall j | i <= j < |n.decls| :: VarsFirst(n.decls[j]) && (n.decls[j].VarDecl? ==> !BlockBefore(n.decls, j))
    decreases |n.decls| - i
  {
    hide CheckDecl, VarsFirst, OpensBlock, IsDecl;
    if i < |n.decls| {
      DeclMisplaced(n.decls[i], id + [i], env);
      DeclsMisplaced(n, i + 1, id, CheckDecl(AsCoded, n.decls[i], id + [i], env).0);
    }
  }

  // ---------- without them, the rules agree ----------

  lemma {:induction false} StmtSame(n: ASTNode, id: NodeId, env: Env)
    requires env.scopes != [] && CheckStmt(AsCoded, n, id, env).1.misplaced == 0
    ensures CheckStmt(Lexical, n, id, env) == CheckStmt(AsCoded, n, id, env)
    decreases n, 1
  {
    hide CheckStmts, CheckExpr, CheckChildren;
    if n.CompoundStmt? {
      StmtsSame(n, 0, id, Opened(env, map[]));
    } else if n.IfStmt? || n.WhileStmt? {
      StmtSame(n.body, id + [1], env);
    }
  }

  lemma {:induction false} StmtsSame(n: ASTNode, i: nat, id: NodeId, env: Env)
    requires n.CompoundStmt? && i <= |n.stmts| && env.scopes != []
    requires CheckStmts(AsCoded, n, i, id, env).1.misplaced == 0
    ensures CheckStmts(Lexical, n, i, id, env) == CheckStmts(AsCoded, n, i, id, env)
    decreases n.stmts, |n.stmts| - i
  {
    hide CheckStmt;
    if i < |n.stmts| {
      StmtSame(n.stmts[i], id + [i], env);
      StmtsSame(n, i + 1, id, CheckStmt(AsCoded, n.stmts[i], id + [i], env).0);
    }
  }

  lemma DeclSame(n: ASTNode, id: NodeId, env: Env)
    requires IsDecl(n) && env.scopes != [] && CheckDecl(AsCoded, n, id, env).1.misplaced == 0
    ensures CheckDecl(Lexical, n, id, env) == CheckDecl(AsCoded, n, id, env)
  {
    hide CheckStmts, CheckParams, CheckChildren, IsStmt;
    if n.FunctionDecl? {
      var mid := DeclareFunction(n, id, env).0;
      var scope := CheckParams(n.params, 0, id + [0], map[]).0;
      StmtsSame(n.body, 0, id + [1], Opened(mid, scope));
    }
  }

  lemma {:induction false} DeclsSame(n: ASTNode, i: nat, id: NodeId, env: Env)
    requires IsProgram(n) && i <= |n.decls| && env.scopes != []
    requires CheckDecls(AsCoded, n, i, id, env).1.misplaced == 0
    ensures CheckDecls(Lexical, n, i, id, env) == CheckDecls(AsCoded, n, i, id, env)
    decreases |n.decls| - i
  {
    hide CheckDecl, IsDecl;
    if i < |n.decls| {
      DeclSame(n.decls[i], id + [i], env);
      DeclsSame(n, i + 1, id, CheckDecl(AsCoded, n.decls[i], id + [i], env).0);
    }
  }

  /** A program puts every variable in the scope that declares it exactly when its variables
      come first; and then violations and bindings are those of lexical scoping. */
  lemma VerdictIsLexical(root: ASTNode)
    requires IsProgram(root)
    ensures CheckProgram(AsCoded, root).misplaced == 0 <==> VarsFirst(root)
    ensures VarsFirst(root) ==> CheckProgram(AsCoded, root) == CheckProgram(Lexical, root)
  {
    hide CheckDecls, IsDecl;
    DeclsMisplaced(root, 0, [], GLOBAL_ENV);
    if CheckProgram(AsCoded, root).misplaced == 0 {
      DeclsSame(root, 0, [], GLOBAL_ENV);
    }
  }

  // ---------- with them, they do not ----------

  /** A variable declared too late never becomes visible under any name, where lexical scoping
      would bind its name to it. */
  lemma LateVariableIsInvisible(env: Env, name: string, id: NodeId)
    requires env.scopes != [] && env.stale && name !in env.scopes[0]
    ensures forall m :: Resolve(DeclareVar(AsCoded, name, id, env).0, m) == Resolve(env, m)
    ensures id in Resolve(DeclareVar(Lexical, name, id, env).0, name)
  {
    var after := DeclareVar(AsCoded, name, id, env).0;
    forall m ensures Resolve(after, m) == Resolve(env, m) {
      SameResolve(after, env, 0, m);
    }
  }

  lemma {:induction false} SameResolve(a: Env, b: Env, i: nat, name: string)
    requires a.scopes == b.scopes && a.funs == b.funs && i <= |a.scopes|
    ensures ResolveFrom(a, i, name) == ResolveFrom(b, i, name)
    decreases |a.scopes| - i
  {
    if i < |a.scopes| {
      SameResolve(a, b, i + 1, name);
    }
  }

  function EmptyFunction(loc: SourceLocation): ASTNode {
    FunctionDecl("f", VOID, ParamVarDecls([]), CompoundStmt([]), loc)
  }

  function NumberVar(name: string, init: ASTNode, loc: SourceLocation): ASTNode {
    VarDecl(name, NUMBER, false, 0, init, loc)
  }

  lemma AfterEmptyFunction(rules: Rules, id: NodeId, env: Env, loc: SourceLocation)
    requires env.scopes != [] && Signature("f", [VOID]) !in env.funs && !env.stale
    ensures CheckDecl(rules, EmptyFunction(loc), id, env)
         == (env.(funs := env.funs[Signature("f", [VOID]) := id], stale := true, aside := map[]), SILENT)
  {
    var f := EmptyFunction(loc);
    assert SignatureOf(f) == Signature("f", [VOID]);
    assert CheckParams(f.params, 0, id + [0], map[]) == (map[], SILENT);
    var (mid, own) := DeclareFunction(f, id, env);
    assert Opened(mid, map[]).scopes[1..] == env.scopes;
    assert SILENT.uses + SILENT.uses == SILENT.uses;
  }

  lemma PlainVar(rules: Rules, name: string, id: NodeId, env: Env, loc: SourceLocation)
    requires env.scopes != []
    ensures var (after, report) := CheckVar(rules, NumberVar(name, Null, loc), id, env);
            var (env', own) := DeclareVar(rules, name, id, env);
            after == env' && report.violations == own.violations
  {
    assert NumberVar(name, Null, loc).Children() == [];
  }

  lemma CopyVar(rules: Rules, name: string, from: string, id: NodeId, env: Env, loc: SourceLocation)
    requires env.scopes != []
    ensures var (env', own) := DeclareVar(rules, name, id, env);
            CheckVar(rules, NumberVar(name, IdentifierExpr(from, loc), loc), id, env).1.violations
              == own.violations + if Resolve(env', from) == {} then 1 else 0
  {
    hide CheckExpr, CheckChildren, Resolve, DeclareVar;
    var use := IdentifierExpr(from, loc);
    var n := NumberVar(name, use, loc);
    var env' := DeclareVar(rules, name, id, env).0;
    OneExpr(n, use, id, env');
    LeafExpr(use, id + [0], env');
  }

  lemma LeafExpr(n: ASTNode, id: NodeId, env: Env)
    requires !n.Null? && n.Children() == []
    ensures CheckExpr(n, id, env).violations == CheckOwn(n, id, env).violations
  {
    hide CheckOwn;
  }

  lemma OneExpr(n: ASTNode, child: ASTNode, id: NodeId, env: Env)
    requires n.Children() == [child]
    ensures CheckChildren(n, 0, id, env).violations == CheckExpr(child, id + [0], env).violations
  {
    hide CheckExpr, ASTNode.Children;
    assert CheckChildren(n, 1, id, env) == SILENT;
  }

  /** `fn f() -> Void { } var x: Int; var y: Int = x;` is well scoped, but the collector reports
      `x` as undeclared. */
  lemma WellScopedButRejected(loc: SourceLocation)
    ensures var y := NumberVar("y", IdentifierExpr("x", loc), loc);
            var root := ProgramDecl([EmptyFunction(loc), NumberVar("x", Null, loc), y]);
            IsProgram(root) && WellScoped(root) && CheckProgram(AsCoded, root).violations == 1
  {
    hide CheckVar, CheckFunction, ResolveFrom;
    var y := NumberVar("y", IdentifierExpr("x", loc), loc);
    var root := ProgramDecl([EmptyFunction(loc), NumberVar("x", Null, loc), y]);
    var env := GLOBAL_ENV.(funs := map[Signature("f", [VOID]) := [0]], stale := true);
    forall rules: Rules ensures CheckProgram(rules, root).violations == if rules.Lexical? then 0 else 1 {
      LastVar(rules, env, loc);
      ThreeDecls(rules, root, y, env, loc);
    }
  }

  lemma LastVar(rules: Rules, env: Env, loc: SourceLocation)
    requires env == GLOBAL_ENV.(funs := map[Signature("f", [VOID]) := [0]], stale := true)
    ensures var (env1, own1) := DeclareVar(rules, "x", [1], env);
            && own1.violations == 0
            && CheckVar(rules, NumberVar("y", IdentifierExpr("x", loc), loc), [2], env1).1.violations
                 == if rules.Lexical? then 0 else 1
  {
    hide CheckVar, ResolveFrom, FunctionsNamed;
    var env1 := DeclareVar(rules, "x", [1], env).0;
    var env2 := DeclareVar(rules, "y", [2], env1).0;
    CopyVar(rules, "y", "x", [2], env1, loc);
    NotAFunction("f", "x", [0]);
    OnlyGlobal(env2, "x");
  }

  lemma NotAFunction(f: string, name: string, id: NodeId)
    requires f != name
    ensures FunctionsNamed(map[Signature(f, [VOID]) := id], name) == {}
  {
  }

  lemma OnlyGlobal(env: Env, name: string)
    requires |env.scopes| == 1 && FunctionsNamed(env.funs, name) == {}
    ensures Resolve(env, name) == if name in env.scopes[0] then {env.scopes[0][name]} else {}
  {
    assert ResolveFrom(env, 1, name) == {};
  }

  lemma ThreeDecls(rules: Rules, root: ASTNode, y: ASTNode, env: Env, loc: SourceLocation)
    requires y.VarDecl? && !y.isParam && IsExpr(y.init)
    requires root == ProgramDecl([EmptyFunction(loc), NumberVar("x", Null, loc), y])
    requires env == GLOBAL_ENV.(funs := map[Signature("f", [VOID]) := [0]], stale := true)
    ensures IsProgram(root)
    ensures var (env1, own1) := DeclareVar(rules, "x", [1], env);
            CheckProgram(rules, root).violations == own1.violations + CheckVar(rules, y, [2], env1).1.violations
  {
    hide CheckVar, CheckFunction, DeclareVar;
    AfterEmptyFunction(rules, [0], GLOBAL_ENV, loc);
    PlainVar(rules, "x", [1], env, loc);
    var env1 := DeclareVar(rules, "x", [1], env).0;
    var env2 := CheckVar(rules, y, [2], env1).0;
    assert [] + [0] == [0] && [] + [1] == [1] && [] + [2] == [2];
    assert CheckDecls(rules, root, 3, [], env2) == (env2, SILENT);
    assert CheckDecls(rules, root, 2, [], env1).1.violations == CheckVar(rules, y, [2], env1).1.violations;
    assert CheckDecls(rules, root, 0, [], GLOBAL_ENV).1.violations == CheckDecls(rules, root, 1, [], env).1.violations;
  }

  /** The declarations are judged one after the other. */
  lemma DeclsStep(rules: Rules, root: ASTNode, i: nat, env: Env)
    requires IsProgram(root) && i < |root.decls| && env.scopes != []
    ensures var (mid, first) := CheckDecl(rules, root.decls[i], [i], env);
            CheckDecls(rules, root, i, [], env).1.violations
              == first.violations + CheckDecls(rules, root, i + 1, [], mid).1.violations
  {
    hide CheckDecl;
    assert [] + [i] == [i];
  }

  lemma VarFunctionVar(rules: Rules, x: ASTNode, loc: SourceLocation)
    requires x == NumberVar("x", Null, loc)
    ensures CheckProgram(rules, ProgramDecl([x, EmptyFunction(loc), x])).violations == if rules.Lexical? then 1 else 0
  {
    hide CheckVar, CheckFunction, CheckDecls;
    var root := ProgramDecl([x, EmptyFunction(loc), x]);
    var env1 := DeclareVar(rules, "x", [0], GLOBAL_ENV).0;
    assert "x" in env1.scopes[0];
    var env2 := env1.(funs := env1.funs[Signature("f", [VOID]) := [1]], stale := true, aside := map[]);
    PlainVar(rules, "x", [0], GLOBAL_ENV, loc);
    AfterEmptyFunction(rules, [1], env1, loc);
    PlainVar(rules, "x", [2], env2, loc);
    DeclsStep(rules, root, 0, GLOBAL_ENV);
    DeclsStep(rules, root, 1, env1);
    DeclsStep(rules, root, 2, env2);
    NoDecls(rules, root, 3, CheckVar(rules, x, [2], env2).0);
  }

  lemma NoDecls(rules: Rules, root: ASTNode, i: nat, env: Env)
    requires IsProgram(root) && i == |root.decls| && env.scopes != []
    ensures CheckDecls(rules, root, i, [], env) == (env, SILENT)
  {
  }

  /** `var x: Int; fn f() -> Void { } var x: Int;` declares `x` twice, which the collector does
      not notice. */
  lemma IllScopedButAccepted(loc: SourceLocation)
    ensures var x := NumberVar("x", Null, loc);
            var root := ProgramDecl([x, EmptyFunction(loc), x]);
            IsProgram(root) && !WellScoped(root) && CheckProgram(AsCoded, root).violations == 0
  {
    hide CheckDecls;
    var x := NumberVar("x", Null, loc);
    VarFunctionVar(Lexical, x, loc);
    VarFunctionVar(AsCoded, x, loc);
  }
}
