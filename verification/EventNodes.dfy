/** Every node stands for one event at most: the events of a tree have different nodes. */
module EventNodes {
  import opened Ast
  import opened LexicalScoping
  import opened ScopeEvents

  predicate HasId(e: Event) {
    e.Var? || e.Fun? || e.Use?
  }

  /** No two events stand for the same node. */
  predicate Distinct(es: seq<Event>) {
    forall i, j | 0 <= i < j < |es| && HasId(es[i]) && HasId(es[j]) :: es[i].id != es[j].id
  }

  /** Events of different nodes at `id` or below. */
  predicate Within(es: seq<Event>, id: NodeId) {
    Distinct(es) && forall k | 0 <= k < |es| && HasId(es[k]) :: id <= es[k].id
  }

  /** Events of different nodes at the `i`-th child or below, or a later one. */
  predicate WithinFrom(es: seq<Event>, id: NodeId, i: nat) {
    Distinct(es) && forall k | 0 <= k < |es| && HasId(es[k]) :: id < es[k].id && es[k].id[|id|] >= i
  }

  // ---------- putting events together ----------

  lemma Union(a: seq<Event>, b: seq<Event>)
    requires Distinct(a) && Distinct(b)
    requires forall i, j | 0 <= i < |a| && 0 <= j < |b| && HasId(a[i]) && HasId(b[j]) :: a[i].id != b[j].id
    ensures Distinct(a + b)
  {
  }

  /** One child and the later ones. */
  lemma ChildAndRest(a: seq<Event>, b: seq<Event>, id: NodeId, i: nat)
    requires Within(a, id + [i]) && WithinFrom(b, id, i + 1)
    ensures WithinFrom(a + b, id, i)
  {
    forall k | 0 <= k < |a| && HasId(a[k]) ensures id < a[k].id && a[k].id[|id|] == i {
      assert a[k].id[..|id| + 1] == id + [i] && (id + [i])[|id|] == i;
      assert a[k].id[..|id|] == id;
    }
    Union(a, b);
  }

  /** The node itself and its children. */
  lemma OwnAndChildren(own: seq<Event>, b: seq<Event>, id: NodeId)
    requires |own| <= 1 && (forall k | 0 <= k < |own| && HasId(own[k]) :: own[k].id == id) && WithinFrom(b, id, 0)
    ensures Within(own + b, id)
  {
    Union(own, b);
  }

  lemma ChildrenOnly(es: seq<Event>, id: NodeId, i: nat)
    requires WithinFrom(es, id, i)
    ensures Within(es, id)
  {
  }

  /** Openings and closings stand for no node. */
  lemma WithScope(es: seq<Event>, id: NodeId, i: nat)
    requires WithinFrom(es, id, i)
    ensures WithinFrom(es + [Close], id, i) && WithinFrom([Open] + es, id, i)
  {
    Union(es, [Close]);
    Union([Open], es);
  }

  // ---------- trees ----------

  lemma {:induction false} ExprNodes(n: ASTNode, id: NodeId)
    ensures Within(ExprEvents(n, id), id)
    decreases n, |n.Children()| + 1
  {
    if !n.Null? {
      ExprsNodes(n, 0, id);
      OwnAndChildren(OwnEvents(n, id), ExprEventsFrom(n, 0, id), id);
    }
  }

  lemma {:induction false} ExprsNodes(n: ASTNode, i: nat, id: NodeId)
    requires i <= |n.Children()|
    ensures WithinFrom(ExprEventsFrom(n, i, id), id, i)
    decreases n, |n.Children()| - i
  {
    hide Within, ExprEvents;
    if i < |n.Children()| {
      ExprNodes(n.Children()[i], id + [i]);
      ExprsNodes(n, i + 1, id);
      ChildAndRest(ExprEvents(n.Children()[i], id + [i]), ExprEventsFrom(n, i + 1, id), id, i);
    }
  }

  lemma VarNodes(n: ASTNode, id: NodeId)
    requires n.VarDecl?
    ensures Within(VarEvents(n, id), id)
  {
    ExprsNodes(n, 0, id);
    OwnAndChildren([Var(n.name, id)], ExprEventsFrom(n, 0, id), id);
  }

  lemma {:induction false} StmtNodes(n: ASTNode, id: NodeId)
    ensures Within(StmtEvents(n, id), id)
    decreases n, 1
  {
    hide Within, WithinFrom, ExprEvents, VarEvents, StmtsEvents;
    if n.VarDecl? {
      VarNodes(n, id);
    } else if n.CompoundStmt? {
      StmtsNodes(n, 0, id);
      WithScope(StmtsEvents(n, 0, id), id, 0);
      WithScope(StmtsEvents(n, 0, id) + [Close], id, 0);
      ChildrenOnly([Open] + (StmtsEvents(n, 0, id) + [Close]), id, 0);
    } else if n.IfStmt? || n.WhileStmt? {
      ExprNodes(n.cond, id + [0]);
      StmtNodes(n.body, id + [1]);
      BranchNodes(ExprEvents(n.cond, id + [0]), StmtEvents(n.body, id + [1]), id);
    } else {
      ExprNodes(n, id);
    }
  }

  lemma BranchNodes(a: seq<Event>, b: seq<Event>, id: NodeId)
    requires Within(a, id + [0]) && Within(b, id + [1])
    ensures Within(a + b, id)
  {
    NoEvents(id, 2);
    ChildAndRest(b, [], id, 1);
    assert b + [] == b;
    ChildAndRest(a, b, id, 0);
    ChildrenOnly(a + b, id, 0);
  }

  lemma NoEvents(id: NodeId, i: nat)
    ensures WithinFrom([], id, i)
  {
  }

  lemma {:induction false} StmtsNodes(n: ASTNode, i: nat, id: NodeId)
    requires n.CompoundStmt? && i <= |n.stmts|
    ensures WithinFrom(StmtsEvents(n, i, id), id, i)
    decreases n.stmts, |n.stmts| - i
  {
    hide Within, WithinFrom, StmtEvents;
    if i < |n.stmts| {
      StmtNodes(n.stmts[i], id + [i]);
      StmtsNodes(n, i + 1, id);
      ChildAndRest(StmtEvents(n.stmts[i], id + [i]), StmtsEvents(n, i + 1, id), id, i);
    } else {
      NoEvents(id, i);
    }
  }

  lemma {:induction false} ParamsNodes(n: ASTNode, i: nat, id: NodeId)
    requires n.ParamVarDecls? && i <= |n.parameters|
    requires forall j | 0 <= j < |n.parameters| :: n.parameters[j].VarDecl?
    ensures WithinFrom(ParamsEvents(n, i, id), id, i)
    decreases |n.parameters| - i
  {
    if i < |n.parameters| {
      ParamsNodes(n, i + 1, id);
      ChildAndRest([Var(n.parameters[i].name, id + [i])], ParamsEvents(n, i + 1, id), id, i);
    }
  }

  lemma FunctionNodes(n: ASTNode, id: NodeId)
    requires n.FunctionDecl? && IsDecl(n)
    ensures Within(FunctionEvents(n, id), id)
  {
    var params, stmts := ParamsEvents(n.params, 0, id + [0]), StmtsEvents(n.body, 0, id + [1]);
    ParamsNodes(n.params, 0, id + [0]);
    StmtsNodes(n.body, 0, id + [1]);
    hide Within, WithinFrom, ParamsEvents, StmtsEvents, IsDecl;
    var body := stmts + [Close];
    WithScope(stmts, id + [1], 0);
    ChildrenOnly(body, id + [1], 0);
    NoEvents(id, 2);
    ChildAndRest(body, [], id, 1);
    assert body + [] == body;
    ChildrenOnly(params, id + [0], 0);
    ChildAndRest(params, body, id, 0);
    WithScope(params + body, id, 0);
    OwnAndChildren([Fun(SignatureOf(n), id)], [Open] + (params + body), id);
    assert FunctionEvents(n, id) == [Fun(SignatureOf(n), id)] + ([Open] + (params + body));
  }

  lemma DeclNodes(n: ASTNode, id: NodeId)
    requires IsDecl(n)
    ensures Within(DeclEvents(n, id), id)
  {
    hide VarEvents, FunctionEvents;
    if n.VarDecl? {
      VarNodes(n, id);
    } else if n.FunctionDecl? {
      FunctionNodes(n, id);
    }
  }

  lemma {:induction false} DeclsNodes(n: ASTNode, i: nat, id: NodeId)
    requires IsProgram(n) && i <= |n.decls|
    ensures WithinFrom(DeclsEvents(n, i, id), id, i)
    decreases |n.decls| - i
  {
    hide Within, WithinFrom, DeclEvents, IsDecl;
    if i < |n.decls| {
      DeclNodes(n.decls[i], id + [i]);
      DeclsNodes(n, i + 1, id);
      ChildAndRest(DeclEvents(n.decls[i], id + [i]), DeclsEvents(n, i + 1, id), id, i);
    } else {
      NoEvents(id, i);
    }
  }

  /** No two declarations or uses of a program are the same node. */
  lemma NodesDiffer(root: ASTNode)
    requires IsProgram(root)
    ensures Distinct(Events(root))
  {
    DeclsNodes(root, 0, []);
  }
}
