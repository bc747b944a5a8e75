/** The collector's flat table, scope counter and path of scope ids refine the stack of
    environments of lexical scoping. */
module ScopingRefinement {
  import opened Ast
  import opened LexicalScoping
  import opened SymbolTable
  import opened Collecting

  lemma TypedChild(n: ASTNode, i: nat)
    requires Typed(n) && i < |n.Children()|
    ensures Typed(n.Children()[i])
  {
  }

  lemma ProgramIsTyped(root: ASTNode)
    requires IsProgram(root)
    ensures Typed(root)
  {
    forall i | 0 <= i < |root.decls| ensures Typed(root.decls[i]) {
      DeclIsTyped(root.decls[i]);
    }
  }

  lemma DeclIsTyped(n: ASTNode)
    requires IsDecl(n)
    ensures Typed(n)
  {
    if n.FunctionDecl? {
      forall i | 0 <= i < |n.params.parameters| ensures Typed(n.params.parameters[i]) {
      }
      assert Typed(n.params);
      StmtIsTyped(n.body);
    } else if n.VarDecl? {
      ExprIsTyped(n.init);
    }
  }

  lemma {:induction false} StmtIsTyped(n: ASTNode)
    requires IsStmt(n)
    ensures Typed(n)
    decreases n
  {
    forall i | 0 <= i < |n.Children()| ensures Typed(n.Children()[i]) {
      if IsExpr(n.Children()[i]) {
        ExprIsTyped(n.Children()[i]);
      } else {
        StmtIsTyped(n.Children()[i]);
      }
    }
  }

  lemma {:induction false} ExprIsTyped(n: ASTNode)
    requires IsExpr(n)
    ensures Typed(n)
    decreases n
  {
    forall i | 0 <= i < |n.Children()| ensures Typed(n.Children()[i]) {
      ExprIsTyped(n.Children()[i]);
    }
  }

  // ---------- the refinement relation ----------

  /** The variables of scope `s` in the flat table are those of the environment `scope`. */
  ghost predicate ScopeAgrees(table: Table, s: nat, scope: map<string, NodeId>) {
    && (forall node :: node in table && table[node].VariableSymbol? && table[node].scopeId == s ==>
          table[node].name in scope && scope[table[node].name] == node)
    && (forall name :: name in scope ==>
          && scope[name] in table && table[scope[name]].VariableSymbol?
          && table[scope[name]].scopeId == s && table[scope[name]].name == name)
  }

  ghost predicate FunsAgree(table: Table, funs: map<Signature, NodeId>) {
    && (forall node :: node in table && table[node].FunctionSymbol? ==>
          var sig := Signature(table[node].name, table[node].types);
          sig in funs && funs[sig] == node)
    && (forall sig :: sig in funs ==>
          funs[sig] in table && table[funs[sig]] == FunctionSymbol(sig.types, sig.name))
  }

  /** No variable lives in a scope with an id above `bound`. */
  ghost predicate Below(table: Table, bound: nat) {
    forall node :: node in table && table[node].VariableSymbol? ==> table[node].scopeId <= bound
  }

  /** The open scopes: ids given out so far, the innermost the most recent, the global one 0. */
  ghost predicate GoodPath(path: seq<nat>, scopeId: nat) {
    && path != [] && path[|path| - 1] == 0 && path[0] <= scopeId
    && forall i, j :: 0 <= i < j < |path| ==> path[i] > path[j]
  }

  ghost predicate Agrees(st: State, env: Env) {
    && GoodPath(st.path, st.scopeId)
    && |st.path| == |env.scopes|
    && (forall i | 0 <= i < |st.path| :: ScopeAgrees(st.table, st.path[i], env.scopes[i]))
    && FunsAgree(st.table, env.funs)
    && (env.stale <==> st.path[0] != st.scopeId)
    && (env.stale ==> ScopeAgrees(st.table, st.scopeId, env.aside))
  }

  ghost predicate Refines(st: State, env: Env) {
    Agrees(st, env) && Below(st.table, st.scopeId)
  }

  /** `st'` comes from `st` by exactly the findings of the report. */
  ghost predicate Reports(st: State, st': State, report: Report) {
    && st'.errors == st.errors + report.violations && st'.uses == st.uses + report.uses
    && st'.misplaced == st.misplaced + report.misplaced
  }

  lemma ReportsPlus(st: State, mid: State, st': State, a: Report, b: Report)
    requires Reports(st, mid, a) && Reports(mid, st', b)
    ensures Reports(st, st', a.Plus(b))
  {
    assert (st.uses + a.uses) + b.uses == st.uses + (a.uses + b.uses);
  }

  // ---------- adding symbols ----------

  lemma AddVariable(table: Table, id: NodeId, sym: Symbol, scope: map<string, NodeId>, funs: map<Signature, NodeId>)
    requires sym.VariableSymbol? && id !in table
    requires ScopeAgrees(table, sym.scopeId, scope) && FunsAgree(table, funs)
    ensures HasClash(table, sym) <==> sym.name in scope
    ensures ScopeAgrees(WithSymbol(table, id, sym), sym.scopeId, Declare(scope, sym.name, id).0)
    ensures FunsAgree(WithSymbol(table, id, sym), funs)
  {
    if sym.name in scope {
      assert Clashes(table[scope[sym.name]], sym);
    }
  }

  lemma OtherScope(table: Table, id: NodeId, sym: Symbol, s: nat, scope: map<string, NodeId>)
    requires sym.VariableSymbol? ==> sym.scopeId != s
    requires id !in table && ScopeAgrees(table, s, scope)
    ensures ScopeAgrees(WithSymbol(table, id, sym), s, scope)
  {
  }

  lemma AddFunction(table: Table, id: NodeId, sig: Signature, funs: map<Signature, NodeId>)
    requires id !in table && FunsAgree(table, funs)
    ensures HasClash(table, FunctionSymbol(sig.types, sig.name)) <==> sig in funs
    ensures FunsAgree(WithSymbol(table, id, FunctionSymbol(sig.types, sig.name)),
                      if sig in funs then funs else funs[sig := id])
  {
    var sym := FunctionSymbol(sig.types, sig.name);
    if sig in funs {
      assert Clashes(table[funs[sig]], sym);
    }
    if node :| node in table && Clashes(table[node], sym) {
      assert Signature(table[node].name, table[node].types) == sig;
    }
  }

  // ---------- looking names up ----------

  lemma FunctionsAgree(table: Table, funs: map<Signature, NodeId>, name: string)
    requires FunsAgree(table, funs)
    ensures forall node :: node in FunctionsNamed(funs, name) <==>
              node in table && table[node].FunctionSymbol? && table[node].name == name
    ensures HasFunction(table, name) <==> FunctionsNamed(funs, name) != {}
  {
    forall node | node in table && table[node].FunctionSymbol? && table[node].name == name
      ensures node in FunctionsNamed(funs, name)
    {
      var sig := Signature(table[node].name, table[node].types);
      assert sig in funs && funs[sig] == node;
    }
    if FunctionsNamed(funs, name) != {} {
      var node :| node in FunctionsNamed(funs, name);
      assert node in table;
    }
  }

  lemma BoundAgrees(st: State, env: Env, i: nat, name: string)
    requires Agrees(st, env) && i < |st.path|
    ensures Matching(st.table, st.path[i], name) == BoundIn(env, i, name)
  {
    hide FunctionsNamed;
    FunctionsAgree(st.table, env.funs, name);
    assert ScopeAgrees(st.table, st.path[i], env.scopes[i]);
    assert st.path[i] == 0 <==> i == |st.path| - 1;
    forall node ensures node in Matching(st.table, st.path[i], name) <==> node in BoundIn(env, i, name) {
    }
  }

  /** The walk along the scope path finds what the stack of environments resolves to. */
  lemma {:induction false} CandidatesAgree(st: State, env: Env, i: nat, name: string)
    requires Agrees(st, env) && i <= |st.path|
    ensures CandidatesFrom(st.table, st.path, i, name) == ResolveFrom(env, i, name)
    decreases |st.path| - i
  {
    hide Agrees, BoundIn, Matching;
    AgreesOnDepth(st, env);
    if i < |st.path| {
      BoundAgrees(st, env, i, name);
      CandidatesAgree(st, env, i + 1, name);
    }
  }

  lemma AgreesOnDepth(st: State, env: Env)
    requires Agrees(st, env)
    ensures |st.path| == |env.scopes| && env.scopes != []
  {
  }

  // ---------- which entries a visit may add ----------

  ghost predicate Fresh(table: Table, id: NodeId) {
    forall node :: node in table ==> !(id <= node)
  }

  /** Every entry of `after` that is not in `table` sits below the address `id`. */
  ghost predicate GrowsUnder(table: Table, after: Table, id: NodeId) {
    forall node :: node in after ==> node in table || id <= node
  }

  lemma StepDown(id: NodeId, i: nat, node: NodeId)
    ensures id + [i] <= node ==> id <= node
    ensures id + [i] <= node ==> forall j: nat | j != i :: !(id + [j] <= node)
  {
    if id + [i] <= node {
      assert node[|id|] == i;
      assert id == (id + [i])[..|id|] == node[..|id|];
    }
  }

  lemma ParamsGrow(n: ASTNode, i: nat, id: NodeId, st: State)
    requires n.ParamVarDecls? && i <= |n.parameters|
    requires forall j | 0 <= j < |n.parameters| :: n.parameters[j].VarDecl?
    ensures GrowsUnder(st.table, AddParams(n, i, id, st).table, id)
    decreases |n.parameters| - i
  {
    if i < |n.parameters| {
      var p := n.parameters[i];
      ParamsGrow(n, i + 1, id, Add(st, id + [i], VariableSymbol(p.varType, st.scopeId + 1, p.name, p.size)));
    }
  }

  lemma {:induction false} CollectGrows(n: ASTNode, id: NodeId, st: State)
    requires Typed(n)
    ensures GrowsUnder(st.table, Collect(n, id, st).table, id)
    decreases n, |n.Children()| + 1
  {
    hide CollectFrom, Typed, CandidatesFrom, SignatureOf, HasFunction;
    if !n.Null? {
      HandleGrows(n, id, Enter(n, st));
      CollectFromGrows(n, 0, id, Handle(n, id, Enter(n, st)));
    }
  }

  lemma HandleGrows(n: ASTNode, id: NodeId, st: State)
    requires Typed(n)
    ensures GrowsUnder(st.table, Handle(n, id, st).table, id)
  {
    hide AddParams, CandidatesFrom, SignatureOf, HasFunction;
    if n.ParamVarDecls? {
      ParamsGrow(n, 0, id, st);
    }
  }

  lemma {:induction false} CollectFromGrows(n: ASTNode, i: nat, id: NodeId, st: State)
    requires Typed(n) && i <= |n.Children()|
    ensures GrowsUnder(st.table, CollectFrom(n, i, id, st).table, id)
    decreases n, |n.Children()| - i
  {
    hide Collect, Typed, ASTNode.Children;
    if i < |n.Children()| {
      TypedChild(n, i);
      var mid := Collect(n.Children()[i], id + [i], st);
      CollectGrows(n.Children()[i], id + [i], st);
      CollectFromGrows(n, i + 1, id, mid);
      forall node | node in mid.table ensures node in st.table || id <= node {
        StepDown(id, i, node);
      }
    }
  }

  /** A later sibling's address is still unused after a visit. */
  lemma SiblingStaysFresh(table: Table, after: Table, id: NodeId, i: nat, j: nat)
    requires i != j && GrowsUnder(table, after, id + [i]) && Fresh(table, id + [j])
    ensures Fresh(after, id + [j])
  {
    forall node | node in after ensures !(id + [j] <= node) {
      StepDown(id, i, node);
    }
  }

  // ---------- expressions ----------

  /** An expression, or a statement that only evaluates expressions. */
  predicate IsSimple(n: ASTNode) {
    match n
    case ProgramDecl(_) => false
    case FunctionDecl(_, _, _, _, _) => false
    case ParamVarDecls(_) => false
    case VarDecl(_, _, _, _, _, _) => false
    case CompoundStmt(_) => false
    case IfStmt(_, _, _) => false
    case WhileStmt(_, _, _) => false
    case _ => forall i | 0 <= i < |n.Children()| :: IsExpr(n.Children()[i])
  }

  lemma ExprIsSimple(n: ASTNode)
    requires IsExpr(n)
    ensures IsSimple(n)
  {
  }

  /** `st'` differs from `st` in its findings only. */
  ghost predicate OnlyFindings(st: State, st': State) {
    st' == st.(errors := st'.errors, uses := st'.uses, misplaced := st'.misplaced)
  }

  lemma SameAgreement(st: State, st': State, env: Env)
    requires OnlyFindings(st, st')
    ensures Agrees(st, env) <==> Agrees(st', env)
    ensures Refines(st, env) <==> Refines(st', env)
  {
  }

  lemma NothingReported(st: State)
    ensures Reports(st, st, SILENT)
  {
    assert st.uses + map[] == st.uses;
  }

  lemma HandleSimple(n: ASTNode, id: NodeId, st: State, env: Env)
    requires Typed(n) && IsSimple(n) && Agrees(st, env)
    ensures Reports(st, Handle(n, id, st), CheckOwn(n, id, env)) && OnlyFindings(st, Handle(n, id, st))
  {
    hide ResolveFrom, CandidatesFrom, HasFunction, FunctionsNamed;
    NothingReported(st);
    if n.IdentifierExpr? {
      CandidatesAgree(st, env, 0, n.name);
      var candidates := Resolve(env, n.name);
      assert st.uses[id := candidates] == st.uses + map[id := candidates];
    } else if n.CallExpr? {
      FunctionsAgree(st.table, env.funs, n.name);
    }
  }

  /** Visiting an expression changes nothing but the findings, by what the rules find in it. */
  lemma {:induction false} SimpleRefines(n: ASTNode, id: NodeId, st: State, env: Env)
    requires Typed(n) && IsSimple(n) && Agrees(st, env)
    ensures Reports(st, Collect(n, id, st), CheckExpr(n, id, env)) && OnlyFindings(st, Collect(n, id, st))
    decreases n, |n.Children()| + 1
  {
    hide CollectFrom, CheckChildren, Typed, Handle, CheckOwn, Agrees;
    NothingReported(st);
    if !n.Null? {
      var mid := Handle(n, id, st);
      HandleSimple(n, id, st, env);
      SameAgreement(st, mid, env);
      ExprsRefine(n, 0, id, mid, env);
      ReportsPlus(st, mid, CollectFrom(n, 0, id, mid), CheckOwn(n, id, env), CheckChildren(n, 0, id, env));
    }
  }

  lemma {:induction false} ExprsRefine(n: ASTNode, i: nat, id: NodeId, st: State, env: Env)
    requires Typed(n) && i <= |n.Children()| && Agrees(st, env)
    requires forall j | 0 <= j < |n.Children()| :: IsExpr(n.Children()[j])
    ensures Reports(st, CollectFrom(n, i, id, st), CheckChildren(n, i, id, env))
    ensures OnlyFindings(st, CollectFrom(n, i, id, st))
    decreases n, |n.Children()| - i
  {
    hide Collect, CheckExpr, Typed, Agrees, ASTNode.Children, IsExpr, IsSimple;
    NothingReported(st);
    if i < |n.Children()| {
      var child := n.Children()[i];
      TypedChild(n, i);
      ExprIsSimple(child);
      var mid := Collect(child, id + [i], st);
      SimpleRefines(child, id + [i], st, env);
      SameAgreement(st, mid, env);
      ExprsRefine(n, i + 1, id, mid, env);
      ReportsPlus(st, mid, CollectFrom(n, i + 1, id, mid), CheckExpr(child, id + [i], env), CheckChildren(n, i + 1, id, env));
    }
  }

  // ---------- variables ----------

  /** Declaring a variable, in the current scope or aside. */
  lemma DeclareRefines(id: NodeId, sym: Symbol, st: State, env: Env)
    requires Refines(st, env) && id !in st.table
    requires sym.VariableSymbol? && sym.scopeId == st.scopeId
    ensures env.scopes != []
    ensures var (env', report) := DeclareVar(AsCoded, sym.name, id, env);
            Refines(AddVar(st, id, sym), env') && Reports(st, AddVar(st, id, sym), report)
  {
    var (env', report) := DeclareVar(AsCoded, sym.name, id, env);
    var after := AddVar(st, id, sym);
    AddVariable(st.table, id, sym, if env.stale then env.aside else env.scopes[0], env.funs);
    assert st.uses + map[] == st.uses;
    forall i | 0 <= i < |st.path| ensures ScopeAgrees(after.table, st.path[i], env'.scopes[i]) {
      if st.path[i] != st.scopeId {
        OtherScope(st.table, id, sym, st.path[i], env.scopes[i]);
      }
    }
  }

  lemma VarRefines(n: ASTNode, id: NodeId, st: State, env: Env)
    requires n.VarDecl? && !n.isParam && IsExpr(n.init) && Typed(n)
    requires Refines(st, env) && id !in st.table && env.scopes != []
    ensures var (env', report) := CheckVar(AsCoded, n, id, env);
            Refines(Collect(n, id, st), env') && Reports(st, Collect(n, id, st), report)
  {
    hide DeclareVar, Agrees, AddVar, CollectFrom, CheckChildren, IsExpr, Typed;
    var sym := VariableSymbol(n.varType, st.scopeId, n.name, n.size);
    var (env', own) := DeclareVar(AsCoded, n.name, id, env);
    var mid := AddVar(st, id, sym);
    DeclareRefines(id, sym, st, env);
    assert Handle(n, id, st) == mid;
    ExprsRefine(n, 0, id, mid, env');
    var after := CollectFrom(n, 0, id, mid);
    SameAgreement(mid, after, env');
    ReportsPlus(st, mid, after, own, CheckChildren(n, 0, id, env'));
  }

  // ---------- blocks ----------

  lemma EnterRefines(n: ASTNode, st: State, env: Env, scope: map<string, NodeId>)
    requires n.CompoundStmt? && Agrees(st, env)
    requires Below(st.table, st.scopeId + 1) && ScopeAgrees(st.table, st.scopeId + 1, scope)
    ensures Refines(Enter(n, st), Opened(env, scope))
  {
    var st', env' := Enter(n, st), Opened(env, scope);
    forall i | 0 <= i < |st'.path| ensures ScopeAgrees(st'.table, st'.path[i], env'.scopes[i]) {
      if i > 0 {
        assert ScopeAgrees(st.table, st.path[i - 1], env.scopes[i - 1]);
      }
    }
  }

  lemma LeaveRefines(n: ASTNode, st: State, env: Env)
    requires n.CompoundStmt? && Refines(st, env) && |st.path| > 1
    ensures Refines(Leave(n, st), Closed(env))
  {
    var st', env' := Leave(n, st), Closed(env);
    forall i | 0 <= i < |st'.path| ensures ScopeAgrees(st'.table, st'.path[i], env'.scopes[i]) {
      assert ScopeAgrees(st.table, st.path[i + 1], env.scopes[i + 1]);
    }
    assert ScopeAgrees(st.table, st.path[0], env.scopes[0]);
    assert st.path[0] > st.path[1];
  }

  lemma FreshBelow(table: Table, id: NodeId)
    requires Fresh(table, id)
    ensures id !in table && forall j: nat :: Fresh(table, id + [j])
  {
    forall j: nat, node | node in table && id + [j] <= node ensures false {
      StepDown(id, j, node);
    }
  }

  /** A block whose new scope already holds the variables `scope` in the table. */
  lemma {:induction false} BlockRefines(n: ASTNode, id: NodeId, st: State, env: Env, scope: map<string, NodeId>)
    requires IsBlock(n) && Typed(n) && Agrees(st, env) && env.scopes != [] && Fresh(st.table, id)
    requires Below(st.table, st.scopeId + 1) && ScopeAgrees(st.table, st.scopeId + 1, scope)
    ensures var (env', report) := CheckBlock(AsCoded, n, id, env, scope);
            Refines(Collect(n, id, st), env') && Reports(st, Collect(n, id, st), report)
    decreases n, 0
  {
    hide CollectFrom, CheckStmts, Typed, IsStmt, Agrees, Below, ScopeAgrees;
    var st1, env1 := Enter(n, st), Opened(env, scope);
    EnterRefines(n, st, env, scope);
    FreshBelow(st.table, id);
    assert Handle(n, id, st1) == st1;
    StmtsRefine(n, 0, id, st1, env1);
    var st2, env2 := CollectFrom(n, 0, id, st1), CheckStmts(AsCoded, n, 0, id, env1).0;
    AgreesOnDepth(st, env);
    LeaveRefines(n, st2, env2);
  }

  lemma {:induction false} StmtsRefine(n: ASTNode, i: nat, id: NodeId, st: State, env: Env)
    requires IsBlock(n) && Typed(n) && i <= |n.stmts| && Refines(st, env) && env.scopes != []
    requires forall j | i <= j < |n.stmts| :: Fresh(st.table, id + [j])
    ensures var (env', report) := CheckStmts(AsCoded, n, i, id, env);
            Refines(CollectFrom(n, i, id, st), env') && Reports(st, CollectFrom(n, i, id, st), report)
    decreases n.stmts, |n.stmts| - i
  {
    hide Collect, CheckStmt, Typed, IsStmt, Refines, Fresh;
    NothingReported(st);
    if i < |n.stmts| {
      var child := n.stmts[i];
      TypedChild(n, i);
      var mid := Collect(child, id + [i], st);
      var (env1, first) := CheckStmt(AsCoded, child, id + [i], env);
      StmtRefines(child, id + [i], st, env);
      CollectGrows(child, id + [i], st);
      forall j | i + 1 <= j < |n.stmts| ensures Fresh(mid.table, id + [j]) {
        SiblingStaysFresh(st.table, mid.table, id, i, j);
      }
      StmtsRefine(n, i + 1, id, mid, env1);
      ReportsPlus(st, mid, CollectFrom(n, i + 1, id, mid), first, CheckStmts(AsCoded, n, i + 1, id, env1).1);
    }
  }

  lemma {:induction false} StmtRefines(n: ASTNode, id: NodeId, st: State, env: Env)
    requires IsStmt(n) && Typed(n) && Refines(st, env) && env.scopes != [] && Fresh(st.table, id)
    ensures var (env', report) := CheckStmt(AsCoded, n, id, env);
            Refines(Collect(n, id, st), env') && Reports(st, Collect(n, id, st), report)
    decreases n, 2
  {
    hide Collect, CheckVar, CheckBlock, CheckExpr, Typed, Refines, Fresh, Reports, IsExpr, OnlyFindings;
    FreshBelow(st.table, id);
    RefinesParts(st, env);
    if n.VarDecl? {
      VarRefines(n, id, st, env);
    } else if n.CompoundStmt? {
      BlockRefines(n, id, st, env, map[]);
    } else if n.IfStmt? || n.WhileStmt? {
      GuardedRefines(n, n.cond, n.body, id, st, env);
    } else {
      StmtIsSimple(n);
      SimpleRefines(n, id, st, env);
      SameAgreement(st, Collect(n, id, st), env);
    }
  }

  lemma StmtIsSimple(n: ASTNode)
    requires IsStmt(n) && !n.VarDecl? && !n.CompoundStmt? && !n.IfStmt? && !n.WhileStmt?
    ensures IsSimple(n)
  {
  }

  lemma RefinesParts(st: State, env: Env)
    requires Refines(st, env)
    ensures Agrees(st, env)
    ensures Below(st.table, st.scopeId + 1) && ScopeAgrees(st.table, st.scopeId + 1, map[])
  {
  }

  lemma {:induction false} GuardedRefines(n: ASTNode, cond: ASTNode, body: ASTNode, id: NodeId, st: State, env: Env)
    requires n.IfStmt? || n.WhileStmt?
    requires Typed(n) && n.Children() == [cond, body] && body < n && IsExpr(cond) && IsBlock(body)
    requires Refines(st, env) && env.scopes != [] && Fresh(st.table, id)
    ensures var (env', report) := CheckStmt(AsCoded, body, id + [1], env);
            && Refines(Collect(n, id, st), env')
            && Reports(st, Collect(n, id, st), CheckExpr(cond, id + [0], env).Plus(report))
    decreases n, 1
  {
    hide Collect, CheckStmt, CheckExpr, Typed, Agrees, Fresh, IsExpr, IsSimple;
    TypedChild(n, 0);
    TypedChild(n, 1);
    var mid := Collect(cond, id + [0], st);
    var after := Collect(body, id + [1], mid);
    TwoChildren(n, id, st);
    ExprIsSimple(cond);
    SimpleRefines(cond, id + [0], st, env);
    SameAgreement(st, mid, env);
    FreshBelow(st.table, id);
    BlockIsStmt(body);
    StmtRefines(body, id + [1], mid, env);
    ReportsPlus(st, mid, after, CheckExpr(cond, id + [0], env), CheckStmt(AsCoded, body, id + [1], env).1);
  }

  lemma BlockIsStmt(n: ASTNode)
    requires IsBlock(n)
    ensures IsStmt(n)
  {
  }

  lemma TwoChildren(n: ASTNode, id: NodeId, st: State)
    requires (n.IfStmt? || n.WhileStmt? || n.FunctionDecl?) && Typed(n)
    ensures Typed(n.Children()[0]) && Typed(n.Children()[1])
    ensures Collect(n, id, st)
         == Collect(n.Children()[1], id + [1], Collect(n.Children()[0], id + [0], Handle(n, id, st)))
    ensures !n.FunctionDecl? ==> Handle(n, id, st) == st
  {
    hide Collect, Typed;
    TypedChild(n, 0);
    TypedChild(n, 1);
    var st1 := Handle(n, id, st);
    var st2 := Collect(n.Children()[0], id + [0], st1);
    assert CollectFrom(n, 2, id, Collect(n.Children()[1], id + [1], st2)) == Collect(n.Children()[1], id + [1], st2);
    assert CollectFrom(n, 1, id, st2) == Collect(n.Children()[1], id + [1], st2);
    assert CollectFrom(n, 0, id, st1) == CollectFrom(n, 1, id, st2);
    CollectOpens(n, id, st);
  }

  lemma CollectOpens(n: ASTNode, id: NodeId, st: State)
    requires !n.Null? && Typed(n)
    ensures Collect(n, id, st) == Leave(n, CollectFrom(n, 0, id, Handle(n, id, Enter(n, st))))
  {
  }

  // ---------- functions ----------

  lemma DeclareFunctionRefines(n: ASTNode, id: NodeId, st: State, env: Env)
    requires n.FunctionDecl? && IsDecl(n) && Typed(n) && Refines(st, env) && id !in st.table
    ensures var (env', report) := DeclareFunction(n, id, env);
            Refines(Handle(n, id, st), env') && Reports(st, Handle(n, id, st), report)
  {
    hide Typed, IsBlock, ParamTypes;
    var sig := SignatureOf(n);
    var sym := FunctionSymbol(sig.types, sig.name);
    NothingReported(st);
    AddFunction(st.table, id, sig, env.funs);
    forall i | 0 <= i < |st.path| ensures ScopeAgrees(WithSymbol(st.table, id, sym), st.path[i], env.scopes[i]) {
      OtherScope(st.table, id, sym, st.path[i], env.scopes[i]);
    }
    if env.stale {
      OtherScope(st.table, id, sym, st.scopeId, env.aside);
    }
  }

  /** The parameters go to the scope whose id comes next, without disturbing the open ones. */
  lemma {:induction false} ParamsRefine(n: ASTNode, i: nat, id: NodeId, st: State, env: Env, scope: map<string, NodeId>)
    requires n.ParamVarDecls? && i <= |n.parameters|
    requires forall j | 0 <= j < |n.parameters| :: n.parameters[j].VarDecl?
    requires Agrees(st, env) && Below(st.table, st.scopeId + 1) && ScopeAgrees(st.table, st.scopeId + 1, scope)
    requires forall j | i <= j < |n.parameters| :: id + [j] !in st.table
    ensures var (scope', report) := CheckParams(n, i, id, scope);
            var after := AddParams(n, i, id, st);
            && Agrees(after, env) && Below(after.table, st.scopeId + 1)
            && ScopeAgrees(after.table, st.scopeId + 1, scope') && Reports(st, after, report)
    decreases |n.parameters| - i
  {
    hide Agrees, Declare, ScopeAgrees, Below, Reports, Report.Plus;
    NothingReported(st);
    if i < |n.parameters| {
      var p := n.parameters[i];
      var mid := Add(st, id + [i], VariableSymbol(p.varType, st.scopeId + 1, p.name, p.size));
      var (scope1, first) := Declare(scope, p.name, id + [i]);
      ParamRefines(p, id + [i], st, env, scope);
      StillFresh(st.table, mid.table, id, i, |n.parameters|);
      ParamsRefine(n, i + 1, id, mid, env, scope1);
      ReportsPlus(st, mid, AddParams(n, i + 1, id, mid), first, CheckParams(n, i + 1, id, scope1).1);
    }
  }

  lemma StillFresh(before: Table, after: Table, id: NodeId, i: nat, k: nat)
    requires forall node :: node in after ==> node in before || node == id + [i]
    requires forall j | i <= j < k :: id + [j] !in before
    ensures forall j | i + 1 <= j < k :: id + [j] !in after
  {
    forall j | i + 1 <= j < k ensures id + [j] !in after {
      assert (id + [j])[|id|] != (id + [i])[|id|];
    }
  }

  lemma ParamRefines(p: ASTNode, id: NodeId, st: State, env: Env, scope: map<string, NodeId>)
    requires p.VarDecl? && id !in st.table
    requires Agrees(st, env) && Below(st.table, st.scopeId + 1) && ScopeAgrees(st.table, st.scopeId + 1, scope)
    ensures var after := Add(st, id, VariableSymbol(p.varType, st.scopeId + 1, p.name, p.size));
            var (scope', report) := Declare(scope, p.name, id);
            && Agrees(after, env) && Below(after.table, st.scopeId + 1)
            && ScopeAgrees(after.table, st.scopeId + 1, scope') && Reports(st, after, report)
            && forall node :: node in after.table ==> node in st.table || node == id
  {
    var sym := VariableSymbol(p.varType, st.scopeId + 1, p.name, p.size);
    NothingReported(st);
    AddVariable(st.table, id, sym, scope, env.funs);
    forall i | 0 <= i < |st.path| ensures ScopeAgrees(WithSymbol(st.table, id, sym), st.path[i], env.scopes[i]) {
      OtherScope(st.table, id, sym, st.path[i], env.scopes[i]);
    }
    if env.stale {
      OtherScope(st.table, id, sym, st.scopeId, env.aside);
    }
  }

  /** Visiting the parameters themselves adds nothing to what their list did. */
  lemma {:induction false} ParamsAreDone(n: ASTNode, i: nat, id: NodeId, st: State)
    requires n.ParamVarDecls? && Typed(n) && i <= |n.parameters|
    requires forall j | 0 <= j < |n.parameters| :: IsParam(n.parameters[j])
    ensures CollectFrom(n, i, id, st) == st
    decreases |n.parameters| - i
  {
    if i < |n.parameters| {
      var p := n.parameters[i];
      TypedChild(n, i);
      assert p.Children() == [] && Handle(p, id + [i], st) == st;
      assert CollectFrom(p, 0, id + [i], st) == st;
      ParamsAreDone(n, i + 1, id, st);
    }
  }

  lemma ParamListRefines(n: ASTNode, id: NodeId, st: State, env: Env)
    requires n.ParamVarDecls? && Typed(n) && Refines(st, env) && Fresh(st.table, id)
    requires forall j | 0 <= j < |n.parameters| :: IsParam(n.parameters[j])
    ensures var (scope, report) := CheckParams(n, 0, id, map[]);
            var after := Collect(n, id, st);
            && Agrees(after, env) && after.scopeId == st.scopeId && Below(after.table, st.scopeId + 1)
            && ScopeAgrees(after.table, st.scopeId + 1, scope) && Reports(st, after, report)
  {
    hide Agrees, CheckParams, ScopeAgrees, Below, Typed;
    RefinesParts(st, env);
    FreshBelow(st.table, id);
    ParamsRefine(n, 0, id, st, env, map[]);
    ParamsAreDone(n, 0, id, AddParams(n, 0, id, st));
  }

  lemma FunctionRefines(n: ASTNode, id: NodeId, st: State, env: Env)
    requires n.FunctionDecl? && IsDecl(n) && Typed(n) && Refines(st, env) && Fresh(st.table, id) && env.scopes != []
    ensures var (env', report) := CheckFunction(AsCoded, n, id, env);
            Refines(Collect(n, id, st), env') && Reports(st, Collect(n, id, st), report)
  {
    hide Agrees, CheckParams, CheckBlock, DeclareFunction, Handle, Collect, Typed, IsStmt, Refines, Fresh;
    FreshBelow(st.table, id);
    FreshBelow(st.table, id + [0]);
    TwoChildren(n, id, st);
    var (env1, own) := DeclareFunction(n, id, env);
    var st1 := Handle(n, id, st);
    DeclareFunctionRefines(n, id, st, env);
    FunctionKeys(n, id, st);
    var (scope, params) := CheckParams(n.params, 0, id + [0], map[]);
    var st2 := Collect(n.params, id + [0], st1);
    ParamListRefines(n.params, id + [0], st1, env1);
    CollectGrows(n.params, id + [0], st1);
    SiblingStaysFresh(st1.table, st2.table, id, 0, 1);
    AgreesOnDepth(st2, env1);
    var (env3, body) := CheckBlock(AsCoded, n.body, id + [1], env1, scope);
    var st3 := Collect(n.body, id + [1], st2);
    BlockRefines(n.body, id + [1], st2, env1, scope);
    ReportsPlus(st1, st2, st3, params, body);
    ReportsPlus(st, st1, st3, own, params.Plus(body));
  }

  /** Entering a function's symbol leaves the addresses of its parameters and body unused. */
  lemma FunctionKeys(n: ASTNode, id: NodeId, st: State)
    requires n.FunctionDecl? && Typed(n) && Fresh(st.table, id)
    ensures Fresh(Handle(n, id, st).table, id + [0]) && Fresh(Handle(n, id, st).table, id + [1])
  {
    hide Typed, SignatureOf;
    FreshBelow(st.table, id);
  }

  // ---------- programs ----------

  lemma DeclRefines(n: ASTNode, id: NodeId, st: State, env: Env)
    requires IsDecl(n) && Typed(n) && Refines(st, env) && env.scopes != [] && Fresh(st.table, id)
    ensures var (env', report) := CheckDecl(AsCoded, n, id, env);
            Refines(Collect(n, id, st), env') && Reports(st, Collect(n, id, st), report)
  {
    hide CheckFunction, CheckVar, Refines, Fresh, Typed, Reports, IsExpr, IsBlock;
    FreshBelow(st.table, id);
    if n.FunctionDecl? {
      FunctionRefines(n, id, st, env);
    } else if n.VarDecl? {
      VarRefines(n, id, st, env);
    } else {
      NothingReported(st);
      assert n.Children() == [];
    }
  }

  lemma {:induction false} DeclsRefine(n: ASTNode, i: nat, id: NodeId, st: State, env: Env)
    requires IsProgram(n) && Typed(n) && i <= |n.decls| && Refines(st, env) && env.scopes != []
    requires forall j | i <= j < |n.decls| :: Fresh(st.table, id + [j])
    ensures var (env', report) := CheckDecls(AsCoded, n, i, id, env);
            Refines(CollectFrom(n, i, id, st), env') && Reports(st, CollectFrom(n, i, id, st), report)
    decreases |n.decls| - i
  {
    hide Collect, CheckDecl, Typed, IsDecl, Refines, Fresh;
    NothingReported(st);
    if i < |n.decls| {
      var child := n.decls[i];
      TypedChild(n, i);
      var mid := Collect(child, id + [i], st);
      var (env1, first) := CheckDecl(AsCoded, child, id + [i], env);
      DeclRefines(child, id + [i], st, env);
      CollectGrows(child, id + [i], st);
      forall j | i + 1 <= j < |n.decls| ensures Fresh(mid.table, id + [j]) {
        SiblingStaysFresh(st.table, mid.table, id, i, j);
      }
      DeclsRefine(n, i + 1, id, mid, env1);
      ReportsPlus(st, mid, CollectFrom(n, i + 1, id, mid), first, CheckDecls(AsCoded, n, i + 1, id, env1).1);
    }
  }

  /** For every program, what a run of the collector finds is what the rules as coded find. */
  lemma ProgramRefines(root: ASTNode)
    requires IsProgram(root) && Typed(root)
    ensures var st, report := Collect(root, [], FRESH), CheckProgram(AsCoded, root);
            st.errors == report.violations && st.uses == report.uses && st.misplaced == report.misplaced
  {
    hide CollectFrom, CheckDecls, Typed, IsDecl;
    assert Handle(root, [], FRESH) == FRESH;
    assert FRESH.uses + CheckProgram(AsCoded, root).uses == CheckProgram(AsCoded, root).uses;
    DeclsRefine(root, 0, [], FRESH, GLOBAL_ENV);
  }

  // ---------- the table ----------

  lemma {:induction false} ParamsKeepCollected(n: ASTNode, i: nat, id: NodeId, st: State)
    requires n.ParamVarDecls? && i <= |n.parameters| && Collected(st.table)
    requires forall j | 0 <= j < |n.parameters| :: n.parameters[j].VarDecl?
    ensures Collected(AddParams(n, i, id, st).table)
    decreases |n.parameters| - i
  {
    hide Collected, WithSymbol;
    if i < |n.parameters| {
      var p := n.parameters[i];
      var sym := VariableSymbol(p.varType, st.scopeId + 1, p.name, p.size);
      AddingKeepsCollected(st.table, id + [i], sym);
      ParamsKeepCollected(n, i + 1, id, Add(st, id + [i], sym));
    }
  }

  lemma ResultComesFirst(n: ASTNode)
    requires n.FunctionDecl? && n.params.ParamVarDecls?
    requires forall i | 0 <= i < |n.params.parameters| :: n.params.parameters[i].VarDecl?
    ensures SignatureOf(n).types != []
  {
  }

  lemma HandleKeepsCollected(n: ASTNode, id: NodeId, st: State)
    requires Typed(n) && Collected(st.table)
    ensures Collected(Handle(n, id, st).table)
  {
    hide Collected, WithSymbol, CandidatesFrom, HasFunction, SignatureOf, AddParams;
    if n.ParamVarDecls? {
      ParamsKeepCollected(n, 0, id, st);
    } else if n.VarDecl? {
      AddingKeepsCollected(st.table, id, VariableSymbol(n.varType, st.scopeId, n.name, n.size));
    } else if n.FunctionDecl? {
      assert Typed(n.Children()[0]);
      ResultComesFirst(n);
      AddingKeepsCollected(st.table, id, FunctionSymbol(SignatureOf(n).types, n.name));
    }
  }

  /** Whatever tree is visited, the table never gets two variables with equal scope and name or
      two functions with equal name and types. */
  lemma {:induction false} CollectKeepsCollected(n: ASTNode, id: NodeId, st: State)
    requires Typed(n) && Collected(st.table)
    ensures Collected(Collect(n, id, st).table)
    decreases n, |n.Children()| + 1
  {
    hide Handle, CollectFrom, Collected, Typed;
    if !n.Null? {
      HandleKeepsCollected(n, id, Enter(n, st));
      CollectFromKeepsCollected(n, 0, id, Handle(n, id, Enter(n, st)));
    }
  }

  lemma {:induction false} CollectFromKeepsCollected(n: ASTNode, i: nat, id: NodeId, st: State)
    requires Typed(n) && i <= |n.Children()| && Collected(st.table)
    ensures Collected(CollectFrom(n, i, id, st).table)
    decreases n, |n.Children()| - i
  {
    hide Collect, Collected, Typed, ASTNode.Children;
    if i < |n.Children()| {
      TypedChild(n, i);
      CollectKeepsCollected(n.Children()[i], id + [i], st);
      CollectFromKeepsCollected(n, i + 1, id, Collect(n.Children()[i], id + [i], st));
    }
  }
}
