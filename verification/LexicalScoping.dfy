/** The scoping rules of TosLang, stated with a stack of environments: a name is visible when
    an enclosing scope declared it before; declaring it twice in one scope, using it
    undeclared, calling an unknown function or declaring a function twice with the same types
    is a violation.

    The symbol collector departs from these rules in one place. It enters a variable under the
    id of the scope opened last, which is not the innermost open one any more once a block has
    been closed. `AsCoded` states the rules with that departure. */
module LexicalScoping {
  import opened Ast

  datatype Rules = Lexical | AsCoded

  /** A node's address, as the path of child indices that leads to it from the root. */
  type NodeId = seq<nat>

  /** What tells two functions apart: the name, and the return type followed by the types of
      the parameters. */
  datatype Signature = Signature(name: string, types: seq<Type>)

  /** The variables of each open scope, innermost first, the global scope last; and the
      functions declared so far. Each name leads to its declaration. `stale` says that the
      scope opened last has been closed, and `aside` then holds its variables. */
  datatype Env = Env(
    scopes: seq<map<string, NodeId>>,
    funs: map<Signature, NodeId>,
    stale: bool,
    aside: map<string, NodeId>)

  const GLOBAL_ENV := Env([map[]], map[], false, map[])

  /** The number of violations found; for every identifier that is visible the declarations it
      may be bound to; and the number of variables not entered in the innermost open scope. */
  datatype Report = Report(violations: nat, uses: map<NodeId, set<NodeId>>, misplaced: nat)
  {
    function Plus(other: Report): Report {
      Report(violations + other.violations, uses + other.uses, misplaced + other.misplaced)
    }
  }

  const SILENT := Report(0, map[], 0)
  const VIOLATION := Report(1, map[], 0)

  // ---------- looking up names ----------

  function FunctionsNamed(funs: map<Signature, NodeId>, name: string): set<NodeId> {
    set sig | sig in funs && sig.name == name :: funs[sig]
  }

  /** In the global scope a function name counts as a variable name too. */
  function BoundIn(env: Env, i: nat, name: string): set<NodeId>
    requires i < |env.scopes|
  {
    (if name in env.scopes[i] then {env.scopes[i][name]} else {})
    + (if i == |env.scopes| - 1 then FunctionsNamed(env.funs, name) else {})
  }

  /** The declarations of the innermost scope from the `i`-th on that declares `name`. */
  function ResolveFrom(env: Env, i: nat, name: string): set<NodeId>
    requires i <= |env.scopes|
    decreases |env.scopes| - i
  {
    if i == |env.scopes| then {}
    else if BoundIn(env, i, name) != {} then BoundIn(env, i, name)
    else ResolveFrom(env, i + 1, name)
  }

  function Resolve(env: Env, name: string): set<NodeId> {
    ResolveFrom(env, 0, name)
  }

  // ---------- expressions ----------

  function CheckOwn(n: ASTNode, id: NodeId, env: Env): Report {
    match n
    case IdentifierExpr(name, _) =>
      if Resolve(env, name) == {} then VIOLATION else Report(0, map[id := Resolve(env, name)], 0)
    case CallExpr(name, _, _) => if FunctionsNamed(env.funs, name) == {} then VIOLATION else SILENT
    case _ => SILENT
  }

  function CheckExpr(n: ASTNode, id: NodeId, env: Env): Report
    decreases n, |n.Children()| + 1
  {
    if n.Null? then SILENT else CheckOwn(n, id, env).Plus(CheckChildren(n, 0, id, env))
  }

  function CheckChildren(n: ASTNode, i: nat, id: NodeId, env: Env): Report
    requires i <= |n.Children()|
    decreases n, |n.Children()| - i
  {
    if i == |n.Children()| then SILENT
    else CheckExpr(n.Children()[i], id + [i], env).Plus(CheckChildren(n, i + 1, id, env))
  }

  // ---------- declarations and statements ----------

  function Declare(scope: map<string, NodeId>, name: string, id: NodeId): (map<string, NodeId>, Report) {
    if name in scope then (scope, VIOLATION) else (scope[name := id], SILENT)
  }

  function Opened(env: Env, scope: map<string, NodeId>): Env {
    env.(scopes := [scope] + env.scopes, stale := false)
  }

  /** Leaving the innermost scope. */
  function Closed(env: Env): Env
    requires env.scopes != []
  {
    env.(scopes := env.scopes[1..], stale := true, aside := if env.stale then env.aside else env.scopes[0])
  }

  /** A statement can only add to the innermost scope. */
  ghost predicate SameOuter(env: Env, env': Env) {
    && env.scopes != [] && env'.scopes != []
    && env'.scopes[1..] == env.scopes[1..] && env'.funs == env.funs
  }

  function DeclareVar(rules: Rules, name: string, id: NodeId, env: Env): (r: (Env, Report))
    requires env.scopes != []
    ensures SameOuter(env, r.0)
  {
    if env.stale && rules.AsCoded? then
      var (aside, own) := Declare(env.aside, name, id);
      (env.(aside := aside), own.(misplaced := 1))
    else
      var (scope, own) := Declare(env.scopes[0], name, id);
      (env.(scopes := [scope] + env.scopes[1..]), own)
  }

  /** A variable is already visible in its own initializer. */
  function CheckVar(rules: Rules, n: ASTNode, id: NodeId, env: Env): (r: (Env, Report))
    requires n.VarDecl? && env.scopes != []
    ensures SameOuter(env, r.0)
  {
    var (after, own) := DeclareVar(rules, n.name, id, env);
    (after, own.Plus(CheckChildren(n, 0, id, after)))
  }

  function CheckStmt(rules: Rules, n: ASTNode, id: NodeId, env: Env): (r: (Env, Report))
    requires env.scopes != []
    ensures SameOuter(env, r.0)
    decreases n, 1
  {
    match n
    case VarDecl(_, _, _, _, _, _) => CheckVar(rules, n, id, env)
    case CompoundStmt(_) => CheckBlock(rules, n, id, env, map[])
    case IfStmt(cond, body, _) =>
      var (after, report) := CheckStmt(rules, body, id + [1], env);
      (after, CheckExpr(cond, id + [0], env).Plus(report))
    case WhileStmt(cond, body, _) =>
      var (after, report) := CheckStmt(rules, body, id + [1], env);
      (after, CheckExpr(cond, id + [0], env).Plus(report))
    case _ => (env, CheckExpr(n, id, env))
  }

  /** A block, whose new scope starts out with the variables `scope`. */
  function CheckBlock(rules: Rules, n: ASTNode, id: NodeId, env: Env, scope: map<string, NodeId>): (r: (Env, Report))
    requires n.CompoundStmt? && env.scopes != []
    ensures SameOuter(env, r.0) && r.0.scopes == env.scopes && r.0.stale
    decreases n, 0
  {
    var (after, report) := CheckStmts(rules, n, 0, id, Opened(env, scope));
    (Closed(after), report)
  }

  /** The statements of a block from the `i`-th on, in its own scope. */
  function CheckStmts(rules: Rules, n: ASTNode, i: nat, id: NodeId, env: Env): (r: (Env, Report))
    requires n.CompoundStmt? && i <= |n.stmts| && env.scopes != []
    ensures SameOuter(env, r.0)
    decreases n.stmts, |n.stmts| - i
  {
    if i == |n.stmts| then (env, SILENT)
    else
      var (mid, first) := CheckStmt(rules, n.stmts[i], id + [i], env);
      var (after, rest) := CheckStmts(rules, n, i + 1, id, mid);
      (after, first.Plus(rest))
  }

  function ParamTypes(params: seq<ASTNode>): seq<Type>
    requires forall i | 0 <= i < |params| :: params[i].VarDecl?
  {
    seq(|params|, i requires 0 <= i < |params| => params[i].varType)
  }

  function SignatureOf(n: ASTNode): Signature
    requires n.FunctionDecl? && n.params.ParamVarDecls?
    requires forall i | 0 <= i < |n.params.parameters| :: n.params.parameters[i].VarDecl?
  {
    Signature(n.name, [n.returnType] + ParamTypes(n.params.parameters))
  }

  /** The parameters from the `i`-th on, declared one after the other in `scope`. */
  function CheckParams(n: ASTNode, i: nat, id: NodeId, scope: map<string, NodeId>): (map<string, NodeId>, Report)
    requires n.ParamVarDecls? && i <= |n.parameters|
    requires forall j | 0 <= j < |n.parameters| :: n.parameters[j].VarDecl?
    decreases |n.parameters| - i
  {
    if i == |n.parameters| then (scope, SILENT)
    else
      var (mid, first) := Declare(scope, n.parameters[i].name, id + [i]);
      var (after, rest) := CheckParams(n, i + 1, id, mid);
      (after, first.Plus(rest))
  }

  function DeclareFunction(n: ASTNode, id: NodeId, env: Env): (Env, Report)
    requires n.FunctionDecl? && IsDecl(n)
  {
    var sig := SignatureOf(n);
    if sig in env.funs then (env, VIOLATION) else (env.(funs := env.funs[sig := id]), SILENT)
  }

  /** The parameters and the body of a function share one scope, and the function is visible in
      its own body. */
  function CheckFunction(rules: Rules, n: ASTNode, id: NodeId, env: Env): (r: (Env, Report))
    requires n.FunctionDecl? && IsDecl(n) && env.scopes != []
    ensures r.0.scopes == env.scopes && r.0.stale
  {
    var (mid, own) := DeclareFunction(n, id, env);
    var (scope, params) := CheckParams(n.params, 0, id + [0], map[]);
    var (after, body) := CheckBlock(rules, n.body, id + [1], mid, scope);
    (after, own.Plus(params.Plus(body)))
  }

  function CheckDecl(rules: Rules, n: ASTNode, id: NodeId, env: Env): (r: (Env, Report))
    requires IsDecl(n) && env.scopes != []
    ensures |r.0.scopes| == |env.scopes|
  {
    match n
    case VarDecl(_, _, _, _, _, _) => CheckVar(rules, n, id, env)
    case FunctionDecl(_, _, _, _, _) => CheckFunction(rules, n, id, env)
    case _ => (env, SILENT)
  }

  function CheckDecls(rules: Rules, n: ASTNode, i: nat, id: NodeId, env: Env): (r: (Env, Report))
    requires IsProgram(n) && i <= |n.decls| && env.scopes != []
    ensures |r.0.scopes| == |env.scopes|
    decreases |n.decls| - i
  {
    if i == |n.decls| then (env, SILENT)
    else
      var (mid, first) := CheckDecl(rules, n.decls[i], id + [i], env);
      var (after, rest) := CheckDecls(rules, n, i + 1, id, mid);
      (after, first.Plus(rest))
  }

  /** The verdict on a whole program. */
  function CheckProgram(rules: Rules, root: ASTNode): Report
    requires IsProgram(root)
  {
    CheckDecls(rules, root, 0, [], GLOBAL_ENV).1
  }

  predicate WellScoped(root: ASTNode)
    requires IsProgram(root)
  {
    CheckProgram(Lexical, root).violations == 0
  }

  /** An identifier whose name no function shares is bound to at most one declaration. */
  lemma {:induction false} ResolveIsUnique(env: Env, i: nat, name: string)
    requires i <= |env.scopes| && FunctionsNamed(env.funs, name) == {}
    ensures |ResolveFrom(env, i, name)| <= 1
    decreases |env.scopes| - i
  {
    if i < |env.scopes| && BoundIn(env, i, name) == {} {
      ResolveIsUnique(env, i + 1, name);
    }
  }
}
