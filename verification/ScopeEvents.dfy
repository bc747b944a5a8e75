/** A program as the sequence of things that happen to scopes: blocks that open and close,
    declarations, and uses of names. Checking the tree is going through that sequence. */
module ScopeEvents {
  import opened Ast
  import opened LexicalScoping

  datatype Event =
    | Open
    | Close
    | Var(name: string, id: NodeId)
    | Fun(sig: Signature, id: NodeId)
    | Use(name: string, id: NodeId)
    | Call(name: string)

  // ---------- what happens in a tree ----------

  function OwnEvents(n: ASTNode, id: NodeId): seq<Event> {
    if n.IdentifierExpr? then [Use(n.name, id)] else if n.CallExpr? then [Call(n.name)] else []
  }

  function ExprEvents(n: ASTNode, id: NodeId): seq<Event>
    decreases n, |n.Children()| + 1
  {
    if n.Null? then [] else OwnEvents(n, id) + ExprEventsFrom(n, 0, id)
  }

  function ExprEventsFrom(n: ASTNode, i: nat, id: NodeId): seq<Event>
    requires i <= |n.Children()|
    decreases n, |n.Children()| - i
  {
    if i == |n.Children()| then []
    else ExprEvents(n.Children()[i], id + [i]) + ExprEventsFrom(n, i + 1, id)
  }

  function VarEvents(n: ASTNode, id: NodeId): seq<Event>
    requires n.VarDecl?
  {
    [Var(n.name, id)] + ExprEventsFrom(n, 0, id)
  }

  function StmtEvents(n: ASTNode, id: NodeId): seq<Event>
    decreases n, 1
  {
    match n
    case VarDecl(_, _, _, _, _, _) => VarEvents(n, id)
    case CompoundStmt(_) => [Open] + (StmtsEvents(n, 0, id) + [Close])
    case IfStmt(cond, body, _) => ExprEvents(cond, id + [0]) + StmtEvents(body, id + [1])
    case WhileStmt(cond, body, _) => ExprEvents(cond, id + [0]) + StmtEvents(body, id + [1])
    case _ => ExprEvents(n, id)
  }

  function StmtsEvents(n: ASTNode, i: nat, id: NodeId): seq<Event>
    requires n.CompoundStmt? && i <= |n.stmts|
    decreases n.stmts, |n.stmts| - i
  {
    if i == |n.stmts| then [] else StmtEvents(n.stmts[i], id + [i]) + StmtsEvents(n, i + 1, id)
  }

  function ParamsEvents(n: ASTNode, i: nat, id: NodeId): seq<Event>
    requires n.ParamVarDecls? && i <= |n.parameters|
    requires forall j | 0 <= j < |n.parameters| :: n.parameters[j].VarDecl?
    decreases |n.parameters| - i
  {
    if i == |n.parameters| then [] else [Var(n.parameters[i].name, id + [i])] + ParamsEvents(n, i + 1, id)
  }

  /** The scope of a function opens before its parameters. */
  function FunctionEvents(n: ASTNode, id: NodeId): seq<Event>
    requires n.FunctionDecl? && IsDecl(n)
  {
    [Fun(SignatureOf(n), id), Open]
    + (ParamsEvents(n.params, 0, id + [0]) + (StmtsEvents(n.body, 0, id + [1]) + [Close]))
  }

  function DeclEvents(n: ASTNode, id: NodeId): seq<Event>
    requires IsDecl(n)
  {
    if n.VarDecl? then VarEvents(n, id) else if n.FunctionDecl? then FunctionEvents(n, id) else []
  }

  function DeclsEvents(n: ASTNode, i: nat, id: NodeId): seq<Event>
    requires IsProgram(n) && i <= |n.decls|
    decreases |n.decls| - i
  {
    if i == |n.decls| then [] else DeclEvents(n.decls[i], id + [i]) + DeclsEvents(n, i + 1, id)
  }

  function Events(root: ASTNode): seq<Event>
    requires IsProgram(root)
  {
    DeclsEvents(root, 0, [])
  }

  // ---------- going through them ----------

  function Happens(rules: Rules, e: Event, env: Env): (r: (Env, Report))
    requires env.scopes != []
    ensures r.0.scopes != []
  {
    match e
    case Open => (Opened(env, map[]), SILENT)
    case Close => (if |env.scopes| > 1 then Closed(env) else env, SILENT)
    case Var(name, id) => DeclareVar(rules, name, id, env)
    case Fun(sig, id) => if sig in env.funs then (env, VIOLATION) else (env.(funs := env.funs[sig := id]), SILENT)
    case Use(name, id) =>
      (env, if Resolve(env, name) == {} then VIOLATION else Report(0, map[id := Resolve(env, name)], 0))
    case Call(name) => (env, if FunctionsNamed(env.funs, name) == {} then VIOLATION else SILENT)
  }

  function HappenAll(rules: Rules, es: seq<Event>, env: Env): (r: (Env, Report))
    requires env.scopes != []
    ensures r.0.scopes != []
  {
    if es == [] then (env, SILENT)
    else
      var (mid, first) := Happens(rules, es[0], env);
      var (after, rest) := HappenAll(rules, es[1..], mid);
      (after, first.Plus(rest))
  }

  lemma PlusAssociates(a: Report, b: Report, c: Report)
    ensures a.Plus(b).Plus(c) == a.Plus(b.Plus(c))
    ensures SILENT.Plus(a) == a && a.Plus(SILENT) == a
  {
    assert (a.uses + b.uses) + c.uses == a.uses + (b.uses + c.uses);
    assert map[] + a.uses == a.uses && a.uses + map[] == a.uses;
  }

  lemma {:induction false} HappenInTurn(rules: Rules, a: seq<Event>, b: seq<Event>, env: Env)
    requires env.scopes != []
    ensures var (mid, first) := HappenAll(rules, a, env);
            var (after, rest) := HappenAll(rules, b, mid);
            HappenAll(rules, a + b, env) == (after, first.Plus(rest))
    decreases |a|
  {
    hide Happens, Report.Plus;
    if a == [] {
      assert a + b == b;
      PlusAssociates(HappenAll(rules, b, env).1, SILENT, SILENT);
    } else {
      var (mid, first) := Happens(rules, a[0], env);
      assert (a + b)[1..] == a[1..] + b && (a + b)[0] == a[0];
      HappenInTurn(rules, a[1..], b, mid);
      var (mid', next) := HappenAll(rules, a[1..], mid);
      PlusAssociates(first, next, HappenAll(rules, b, mid').1);
    }
  }

  lemma HappensAlone(rules: Rules, e: Event, env: Env)
    requires env.scopes != []
    ensures HappenAll(rules, [e], env) == Happens(rules, e, env)
  {
    hide Happens, Report.Plus;
    var (mid, first) := Happens(rules, e, env);
    assert HappenAll(rules, [e][1..], mid) == (mid, SILENT);
    PlusAssociates(first, SILENT, SILENT);
  }

  // ---------- the tree and its events ----------

  lemma {:induction false} ExprHappens(rules: Rules, n: ASTNode, id: NodeId, env: Env)
    requires env.scopes != []
    ensures HappenAll(rules, ExprEvents(n, id), env) == (env, CheckExpr(n, id, env))
    decreases n, |n.Children()| + 1
  {
    hide Resolve, FunctionsNamed, CheckChildren, ExprEventsFrom, Report.Plus;
    if !n.Null? {
      var rest := ExprEventsFrom(n, 0, id);
      ExprsHappen(rules, n, 0, id, env);
      HappenInTurn(rules, OwnEvents(n, id), rest, env);
      if n.IdentifierExpr? || n.CallExpr? {
        HappensAlone(rules, OwnEvents(n, id)[0], env);
      }
    }
  }

  lemma {:induction false} ExprsHappen(rules: Rules, n: ASTNode, i: nat, id: NodeId, env: Env)
    requires i <= |n.Children()| && env.scopes != []
    ensures HappenAll(rules, ExprEventsFrom(n, i, id), env) == (env, CheckChildren(n, i, id, env))
    decreases n, |n.Children()| - i
  {
    hide CheckExpr, ExprEvents, Report.Plus, ASTNode.Children;
    if i < |n.Children()| {
      ExprHappens(rules, n.Children()[i], id + [i], env);
      ExprsHappen(rules, n, i + 1, id, env);
      HappenInTurn(rules, ExprEvents(n.Children()[i], id + [i]), ExprEventsFrom(n, i + 1, id), env);
    }
  }

  lemma VarHappens(rules: Rules, n: ASTNode, id: NodeId, env: Env)
    requires n.VarDecl? && env.scopes != []
    ensures HappenAll(rules, VarEvents(n, id), env) == CheckVar(rules, n, id, env)
  {
    hide CheckChildren, ExprEventsFrom, DeclareVar, Report.Plus;
    var e := Var(n.name, id);
    HappensAlone(rules, e, env);
    ExprsHappen(rules, n, 0, id, DeclareVar(rules, n.name, id, env).0);
    HappenInTurn(rules, [e], ExprEventsFrom(n, 0, id), env);
  }

  /** A scope that opens, is gone through and closes. */
  lemma ScopeHappens(rules: Rules, es: seq<Event>, env: Env)
    requires env.scopes != [] && |HappenAll(rules, es, Opened(env, map[])).0.scopes| > 1
    ensures var (inner, report) := HappenAll(rules, es, Opened(env, map[]));
            HappenAll(rules, [Open] + (es + [Close]), env) == (Closed(inner), report)
  {
    hide Report.Plus;
    var inside := Opened(env, map[]);
    var (inner, report) := HappenAll(rules, es, inside);
    HappensAlone(rules, Open, env);
    HappensAlone(rules, Close, inner);
    HappenInTurn(rules, es, [Close], inside);
    HappenInTurn(rules, [Open], es + [Close], env);
    PlusAssociates(report, SILENT, SILENT);
  }

  lemma BranchHappens(rules: Rules, n: ASTNode, id: NodeId, env: Env)
    requires (n.IfStmt? || n.WhileStmt?) && env.scopes != []
    requires HappenAll(rules, StmtEvents(n.body, id + [1]), env) == CheckStmt(rules, n.body, id + [1], env)
    ensures HappenAll(rules, StmtEvents(n, id), env) == CheckStmt(rules, n, id, env)
  {
    BranchUnfolds(rules, n, id, env);
    hide CheckExpr, ExprEvents, CheckStmt, StmtEvents, Report.Plus, Happens, HappenAll;
    ExprHappens(rules, n.cond, id + [0], env);
    HappenInTurn(rules, ExprEvents(n.cond, id + [0]), StmtEvents(n.body, id + [1]), env);
  }

  lemma BranchUnfolds(rules: Rules, n: ASTNode, id: NodeId, env: Env)
    requires (n.IfStmt? || n.WhileStmt?) && env.scopes != []
    ensures StmtEvents(n, id) == ExprEvents(n.cond, id + [0]) + StmtEvents(n.body, id + [1])
    ensures var (after, report) := CheckStmt(rules, n.body, id + [1], env);
            CheckStmt(rules, n, id, env) == (after, CheckExpr(n.cond, id + [0], env).Plus(report))
  {
    hide CheckExpr, ExprEvents, Report.Plus;
  }

  lemma {:induction false} StmtHappens(rules: Rules, n: ASTNode, id: NodeId, env: Env)
    requires env.scopes != []
    ensures HappenAll(rules, StmtEvents(n, id), env) == CheckStmt(rules, n, id, env)
    decreases n, 1
  {
    hide CheckExpr, CheckVar, VarEvents, ExprEvents, CheckStmts, StmtsEvents, Report.Plus, Happens;
    if n.VarDecl? {
      VarHappens(rules, n, id, env);
    } else if n.CompoundStmt? {
      StmtsHappen(rules, n, 0, id, Opened(env, map[]));
      ScopeHappens(rules, StmtsEvents(n, 0, id), env);
    } else if n.IfStmt? || n.WhileStmt? {
      StmtHappens(rules, n.body, id + [1], env);
      BranchHappens(rules, n, id, env);
    } else {
      ExprHappens(rules, n, id, env);
    }
  }

  lemma {:induction false} StmtsHappen(rules: Rules, n: ASTNode, i: nat, id: NodeId, env: Env)
    requires n.CompoundStmt? && i <= |n.stmts| && env.scopes != []
    ensures HappenAll(rules, StmtsEvents(n, i, id), env) == CheckStmts(rules, n, i, id, env)
    decreases n.stmts, |n.stmts| - i
  {
    hide CheckStmt, StmtEvents, Report.Plus, Happens;
    if i < |n.stmts| {
      StmtHappens(rules, n.stmts[i], id + [i], env);
      var mid := CheckStmt(rules, n.stmts[i], id + [i], env).0;
      StmtsHappen(rules, n, i + 1, id, mid);
      HappenInTurn(rules, StmtEvents(n.stmts[i], id + [i]), StmtsEvents(n, i + 1, id), env);
    }
  }

  /** Parameters are declared in a scope that has just been opened. */
  lemma {:induction false} ParamsHappen(rules: Rules, n: ASTNode, i: nat, id: NodeId, env: Env, scope: map<string, NodeId>)
    requires n.ParamVarDecls? && i <= |n.parameters| && env.scopes != []
    requires forall j | 0 <= j < |n.parameters| :: n.parameters[j].VarDecl?
    ensures var (scope', report) := CheckParams(n, i, id, scope);
            HappenAll(rules, ParamsEvents(n, i, id), Opened(env, scope)) == (Opened(env, scope'), report)
    decreases |n.parameters| - i
  {
    hide Report.Plus;
    if i < |n.parameters| {
      var e := Var(n.parameters[i].name, id + [i]);
      var (mid, first) := Declare(scope, e.name, e.id);
      assert Opened(env, scope).scopes[1..] == env.scopes;
      assert Happens(rules, e, Opened(env, scope)) == (Opened(env, mid), first);
      HappensAlone(rules, e, Opened(env, scope));
      ParamsHappen(rules, n, i + 1, id, env, mid);
      HappenInTurn(rules, [e], ParamsEvents(n, i + 1, id), Opened(env, scope));
    }
  }

  lemma FunctionHappens(rules: Rules, n: ASTNode, id: NodeId, env: Env)
    requires n.FunctionDecl? && IsDecl(n) && env.scopes != []
    ensures HappenAll(rules, FunctionEvents(n, id), env) == CheckFunction(rules, n, id, env)
  {
    hide Report.Plus, CheckParams, CheckStmts, ParamsEvents, StmtsEvents, SignatureOf, IsStmt;
    var fun := Fun(SignatureOf(n), id);
    var (mid, own) := DeclareFunction(n, id, env);
    var params, stmts := ParamsEvents(n.params, 0, id + [0]), StmtsEvents(n.body, 0, id + [1]);
    var (scope, first) := CheckParams(n.params, 0, id + [0], map[]);
    var (after, rest) := CheckStmts(rules, n.body, 0, id + [1], Opened(mid, scope));
    ParamsHappen(rules, n.params, 0, id + [0], mid, map[]);
    StmtsHappen(rules, n.body, 0, id + [1], Opened(mid, scope));
    HappenInTurn(rules, params, stmts, Opened(mid, map[]));
    assert Opened(mid, scope).scopes[1..] == mid.scopes;
    ScopeHappens(rules, params + stmts, mid);
    HappensAlone(rules, fun, env);
    HappenInTurn(rules, [fun], [Open] + ((params + stmts) + [Close]), env);
    assert FunctionEvents(n, id) == [fun] + ([Open] + ((params + stmts) + [Close]));
  }

  lemma DeclHappens(rules: Rules, n: ASTNode, id: NodeId, env: Env)
    requires IsDecl(n) && env.scopes != []
    ensures HappenAll(rules, DeclEvents(n, id), env) == CheckDecl(rules, n, id, env)
  {
    hide CheckVar, CheckFunction, VarEvents, FunctionEvents;
    if n.VarDecl? {
      VarHappens(rules, n, id, env);
    } else if n.FunctionDecl? {
      FunctionHappens(rules, n, id, env);
    }
  }

  lemma {:induction false} DeclsHappen(rules: Rules, n: ASTNode, i: nat, id: NodeId, env: Env)
    requires IsProgram(n) && i <= |n.decls| && env.scopes != []
    ensures HappenAll(rules, DeclsEvents(n, i, id), env) == CheckDecls(rules, n, i, id, env)
    decreases |n.decls| - i
  {
    hide CheckDecl, DeclEvents, Report.Plus, Happens;
    if i < |n.decls| {
      DeclHappens(rules, n.decls[i], id + [i], env);
      var mid := CheckDecl(rules, n.decls[i], id + [i], env).0;
      DeclsHappen(rules, n, i + 1, id, mid);
      HappenInTurn(rules, DeclEvents(n.decls[i], id + [i]), DeclsEvents(n, i + 1, id), env);
    }
  }

  /** The rules judge a program as they judge its events, one after the other. */
  lemma ProgramHappens(rules: Rules, root: ASTNode)
    requires IsProgram(root)
    ensures HappenAll(rules, Events(root), GLOBAL_ENV).1 == CheckProgram(rules, root)
  {
    DeclsHappen(rules, root, 0, [], GLOBAL_ENV);
  }
}
