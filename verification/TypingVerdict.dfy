/** The verdict of the type checker on statements, declarations and whole programs. */
module TypingVerdict {
  import opened Ast
  import opened LexicalScoping
  import opened SymbolTable
  import opened TypeChecking
  import opened TypingRules
  import opened TableDeclarations
  import opened TypingFrames
  import opened TypingExpressions
  import opened TypingCalls
  import opened TypingVisits
  import opened TypingSoundness

  // ---------- a type asked of one child ----------

  /** Visiting the child and checking it touches nothing else. */
  lemma AskedFrames(syms: Symbols, e: ASTNode, id: NodeId, ty: Type, st: State)
    ensures Outside(Visit(syms, e, id, st), st, id)
    ensures Outside(Check(syms, e, id, ty, Visit(syms, e, id, st)).1, st, id)
  {
    var mid := Visit(syms, e, id, st);
    VisitFrames(syms, e, id, st);
    CheckFrames(syms, e, id, ty, mid);
    OutsideTrans(Check(syms, e, id, ty, mid).1, mid, st, id);
  }

  /** A node that asks a type of its only child is annotated when the child is. */
  lemma AskerAnnotated(g: Context, n: ASTNode, e: ASTNode, id: NodeId, func: Option<NodeId>, r: State)
    requires n.VarDecl? || n.ReturnStmt?
    requires n.Children() == [e] && Annotated(g, e, id + [0], func, r)
    requires AskedType(g, n, 0, id, func).Some? ==> ResolvedTo(g, e, id + [0], AskedType(g, n, 0, id, func).value, r)
    ensures Annotated(g, n, id, func, r)
  {
    hide AskedType, ResolvedTo;
    assert n.Children()[0] == e;
  }

  lemma VarVisited(g: Context, syms: Symbols, n: ASTNode, id: NodeId, st: State)
    requires n.VarDecl? && Checkable(n)
    requires Fine(st) && Matches(g, syms) && Ahead(g, st, id)
    ensures Judged(g, n, id, st, Visit(syms, n, id, st))
  {
    hide Visit, Simple, Settled, Ahead, Annotated, Symbols.Valid, Collected;
    if n.init.Null? {
      LeafVisited(syms, n, id, st);
      AheadWaits(g, st, id);
      LeafAnnotated(g, n, id, st.func, st);
    } else {
      VarIsEntered(syms, n, id, st);
      if DeclaredType(g.decls, id).Some? {
        InitJudged(g, syms, n, id, st);
      } else {
        SimpleIsStable(syms, n.init, id + [0], st);
      }
    }
  }

  /** The verdict on an initializer, given the declared type. */
  lemma InitJudged(g: Context, syms: Symbols, n: ASTNode, id: NodeId, st: State)
    requires n.VarDecl? && !n.init.Null? && Simple(n.init) && DeclaredType(g.decls, id).Some?
    requires Fine(st) && Matches(g, syms) && Ahead(g, st, id)
    ensures var mid := Visit(syms, n.init, id + [0], st);
            Judged(g, n, id, st, if mid.failed then mid else HandleVar(syms, n, id, mid))
  {
    hide Visit, Check, Simple, Settled, Ahead, Annotated, HasType, HasSomeType, Evaluates, Symbols.Valid, Collected;
    var e, ty := n.init, DeclaredType(g.decls, id).value;
    AheadChild(g, st, id, 0);
    AheadWaits(g, st, id);
    AskedVisited(g, syms, e, id + [0], ty, st.func, st);
    var mid := Visit(syms, e, id + [0], st);
    var (good, after) := Check(syms, e, id + [0], ty, mid);
    AskedFrames(syms, e, id + [0], ty, st);
    SimpleIsReported(e);
    SomeEvaluates(g, e, id + [0]);
    if Evaluates(g, e, id + [0]) {
      OnlyBelowChild(st, after, id, 0);
      if (if e.IndexedExpr? then HasSomeType(g, e, id + [0]) else HasType(g, e, id + [0], ty)) {
        AskerAnnotated(g, n, e, id, st.func, after);
      }
    }
  }

  lemma SomeEvaluates(g: Context, n: ASTNode, id: NodeId)
    ensures HasSomeType(g, n, id) ==> Evaluates(g, n, id)
  {
    hide Evaluates, Unambiguous;
  }

  lemma SimpleIsReported(n: ASTNode)
    requires Simple(n)
    ensures IsReported(n) || n.IndexedExpr? || n.CallExpr?
  {
  }

  lemma LeafVisited(syms: Symbols, n: ASTNode, id: NodeId, st: State)
    requires n.Children() == [] && (n.VarDecl? || n.PrintStmt? || n.SyncStmt? || n.ParamVarDecls? || IsMissing(n))
    ensures Visit(syms, n, id, st) == st
  {
    if !n.Null? {
      assert VisitFrom(syms, n, 0, id, st) == st;
    }
  }

  lemma LeafAnnotated(g: Context, n: ASTNode, id: NodeId, func: Option<NodeId>, st: State)
    requires n.Children() == []
    requires n.VarDecl? || n.PrintStmt? || n.SyncStmt? || n.ReturnStmt? || n.ParamVarDecls? || IsMissing(n)
    ensures Annotated(g, n, id, func, st)
  {
  }

  lemma VarIsEntered(syms: Symbols, n: ASTNode, id: NodeId, st: State)
    requires n.VarDecl? && !n.init.Null? && Simple(n.init)
    ensures var mid := Visit(syms, n.init, id + [0], st);
            Visit(syms, n, id, st) == if mid.failed then mid else HandleVar(syms, n, id, mid)
  {
    OneChildVisited(syms, n, n.init, id, st);
    hide Visit, HandleVar;
  }

  lemma ReturnVisited(g: Context, syms: Symbols, n: ASTNode, id: NodeId, st: State)
    requires n.ReturnStmt? && Checkable(n)
    requires Fine(st) && Matches(g, syms) && Ahead(g, st, id)
    ensures Judged(g, n, id, st, Visit(syms, n, id, st))
  {
    hide Visit, Simple, Settled, Ahead, Annotated, HandleReturn, Symbols.Valid, Collected;
    if n.result.Null? {
      BareReturnIsEntered(syms, n, id, st);
      BareReturnJudged(g, syms, n, id, st);
    } else {
      ReturnIsEntered(syms, n, id, st);
      ReturnJudged(g, syms, n, id, st);
    }
  }

  lemma BareReturnIsEntered(syms: Symbols, n: ASTNode, id: NodeId, st: State)
    requires n.ReturnStmt? && n.result.Null? && !st.failed
    ensures Visit(syms, n, id, st) == HandleReturn(syms, n, id, st)
  {
    hide HandleReturn;
    assert VisitFrom(syms, n, 0, id, st) == st;
  }

  lemma BareReturnJudged(g: Context, syms: Symbols, n: ASTNode, id: NodeId, st: State)
    requires n.ReturnStmt? && n.result.Null? && Fine(st) && Matches(g, syms) && Ahead(g, st, id)
    ensures Judged(g, n, id, st, HandleReturn(syms, n, id, st))
  {
    hide Annotated, Settled, Ahead, Symbols.Valid, Collected;
    AheadWaits(g, st, id);
    LeafAnnotated(g, n, id, st.func, st);
  }

  lemma ReturnIsEntered(syms: Symbols, n: ASTNode, id: NodeId, st: State)
    requires n.ReturnStmt? && !n.result.Null? && Simple(n.result)
    ensures var mid := Visit(syms, n.result, id + [0], st);
            Visit(syms, n, id, st) == if mid.failed then mid else HandleReturn(syms, n, id, mid)
  {
    OneChildVisited(syms, n, n.result, id, st);
    hide Visit, HandleReturn;
  }

  lemma ReturnJudged(g: Context, syms: Symbols, n: ASTNode, id: NodeId, st: State)
    requires n.ReturnStmt? && !n.result.Null? && Simple(n.result)
    requires Fine(st) && Matches(g, syms) && Ahead(g, st, id)
    ensures var mid := Visit(syms, n.result, id + [0], st);
            Judged(g, n, id, st, if mid.failed then mid else HandleReturn(syms, n, id, mid))
  {
    hide Visit, Check, Simple, Settled, Ahead, Annotated, HasType, HasSomeType, Evaluates, ResolvedTo, Symbols.Valid;
    hide Collected;
    var e, func := n.result, st.func;
    var ty := if ResultOf(g.decls, func).Some? then ResultOf(g.decls, func).value else ERROR;
    AheadChild(g, st, id, 0);
    AheadWaits(g, st, id);
    AskedVisited(g, syms, e, id + [0], ty, func, st);
    AskedFrames(syms, e, id + [0], ty, st);
    var mid := Visit(syms, e, id + [0], st);
    var (good, after) := Check(syms, e, id + [0], ty, mid);
    if Evaluates(g, e, id + [0]) {
      OnlyBelowChild(st, after, id, 0);
      if HasType(g, e, id + [0], ty) {
        AskerAnnotated(g, n, e, id, func, after);
      }
    }
  }

  // ---------- conditions ----------

  /** What is known of a visited expression that evaluates. */
  ghost predicate Understood(g: Context, n: ASTNode, id: NodeId, st: State) {
    Kept(g, n, id, st) && Evaluates(g, n, id) && Tells(g, n, id, st)
  }

  /** Visiting the body does not touch what is known of the condition. */
  lemma ConditionStays(g: Context, e: ASTNode, id: NodeId, a: State, b: State)
    requires Understood(g, e, id + [0], a) && Outside(b, a, id + [1])
    ensures Understood(g, e, id + [0], b)
  {
    hide Kept, Evaluates, Tells;
    forall k | id + [0] <= k ensures AgreeAt(a, b, k) {
      ChildrenAreApart(id, 0, 1, k);
      assert AgreeAt(b, a, k);
    }
    KeptStays(g, e, id + [0], a, b);
    TellsStays(g, e, id + [0], a, b);
  }

  /** Two disjoint children. */
  lemma BelowTwoChildren(mid: State, r: State, id: NodeId)
    requires Outside(r, mid, id + [0])
    requires forall k | k in mid.overloads && id <= k :: id + [0] <= k || id + [1] <= k
    ensures Settled(r, id) <==> Settled(r, id + [0]) && Settled(mid, id + [1])
  {
    forall k | k in mid.overloads && id + [1] <= k
      ensures id <= k && k in r.overloads && r.overloads[k] == mid.overloads[k]
    {
      ChildrenAreApart(id, 1, 0, k);
      assert AgreeAt(r, mid, k);
    }
    forall k | k in r.overloads && id + [0] <= k ensures id <= k {
      BelowChild(id, 0, k);
    }
    forall k | k in r.overloads && id <= k && !(id + [0] <= k)
      ensures id + [1] <= k && k in mid.overloads && mid.overloads[k] == r.overloads[k]
    {
      assert AgreeAt(r, mid, k);
    }
  }

  /** What the condition leaves for the visit of the body. */
  lemma ConditionVisited(g: Context, syms: Symbols, e: ASTNode, id: NodeId, st: State)
    requires Simple(e) && Fine(st) && Matches(g, syms) && Ahead(g, st, id)
    ensures var mid := Visit(syms, e, id + [0], st);
            && mid.func == st.func && Outside(mid, st, id + [0]) && Ahead(g, mid, id + [1])
            && (Evaluates(g, e, id + [0]) <==> Fine(mid))
            && (Evaluates(g, e, id + [0]) ==> Understood(g, e, id + [0], mid))
            && forall k | k in mid.overloads && id <= k :: id + [0] <= k
  {
    hide Visit, Simple, Kept, Evaluates, Tells, Ahead, AheadFrom, Symbols.Valid, Collected;
    AheadChild(g, st, id, 0);
    AheadOfAll(g, st, id);
    AheadWaits(g, st, id);
    SimpleVisited(g, syms, e, id + [0], st);
    SimpleIsStable(syms, e, id + [0], st);
    var mid := Visit(syms, e, id + [0], st);
    VisitFrames(syms, e, id + [0], st);
    AheadBehindChild(g, st, mid, id, 0);
    AheadOfChild(g, mid, id, 1);
    if Evaluates(g, e, id + [0]) {
      SimpleSettles(g, syms, e, id + [0], st);
    }
    forall k | id <= k && !(id + [0] <= k) ensures k !in mid.overloads {
      assert AgreeAt(mid, st, k);
    }
  }

  lemma ConditionJudged(g: Context, syms: Symbols, n: ASTNode, e: ASTNode, body: ASTNode, id: NodeId,
                        st: State, after: State, r: State)
    requires (n.IfStmt? || n.WhileStmt?) && n.cond == e && n.body == body && Simple(e)
    requires Fine(st) && Matches(g, syms) && Ahead(g, st, id)
    requires after == Visit(syms, body, id + [1], Visit(syms, e, id + [0], st))
    requires r == if after.failed then after else Expect(syms, e, id + [0], BOOL, after)
    requires Fine(Visit(syms, e, id + [0], st)) ==> Judged(g, body, id + [1], Visit(syms, e, id + [0], st), after)
    ensures Judged(g, n, id, st, r)
  {
    hide Visit, Simple, Check, Annotated, Understood, Evaluates, Settled, HasType, Ahead, Symbols.Valid, Collected;
    var mid := Visit(syms, e, id + [0], st);
    ConditionVisited(g, syms, e, id, st);
    if Fine(after) && Fine(mid) {
      ConditionChecked(g, syms, n, id, st, mid, after);
    } else if HasType(g, e, id + [0], BOOL) {
      HasTypeEvaluates(g, e, id + [0], BOOL);
    }
  }

  lemma HasTypeEvaluates(g: Context, n: ASTNode, id: NodeId, ty: Type)
    requires HasType(g, n, id, ty)
    ensures Evaluates(g, n, id)
  {
    hide Evaluates, MayHave, Inner;
    MayHaveEvaluates(g, n, id, ty);
  }

  lemma ConditionChecked(g: Context, syms: Symbols, n: ASTNode, id: NodeId, st: State, mid: State, after: State)
    requires (n.IfStmt? || n.WhileStmt?) && Simple(n.cond)
    requires Fine(st) && Matches(g, syms) && Understood(g, n.cond, id + [0], mid)
    requires forall k | k in mid.overloads && id <= k :: id + [0] <= k
    requires after == Visit(syms, n.body, id + [1], mid) && Fine(after)
    ensures var r := Expect(syms, n.cond, id + [0], BOOL, after);
            && (Fine(r) && Settled(r, id) <==> HasType(g, n.cond, id + [0], BOOL) && Settled(after, id + [1]))
            && (HasType(g, n.cond, id + [0], BOOL) && Annotated(g, n.body, id + [1], st.func, after) ==>
                 Annotated(g, n, id, st.func, r))
  {
    hide Visit, Simple, Check, Annotated, Kept, Evaluates, Settled, HasType, Tells, Symbols.Valid, Collected;
    var e := n.cond;
    VisitFrames(syms, n.body, id + [1], mid);
    ConditionStays(g, e, id, mid, after);
    AskedChecked(g, syms, e, id + [0], BOOL, st.func, after);
    var (good, r) := Check(syms, e, id + [0], BOOL, after);
    CheckFrames(syms, e, id + [0], BOOL, after);
    if good {
      OnlyTheTwo(mid, after, id);
      BelowTwoChildren(after, r, id);
      if HasType(g, e, id + [0], BOOL) && Annotated(g, n.body, id + [1], st.func, after) {
        BranchAnnotated(g, n, id, st.func, after, r);
      }
    }
  }

  lemma OnlyTheTwo(mid: State, after: State, id: NodeId)
    requires Outside(after, mid, id + [1])
    requires forall k | k in mid.overloads && id <= k :: id + [0] <= k
    ensures forall k | k in after.overloads && id <= k :: id + [0] <= k || id + [1] <= k
  {
    forall k | k in after.overloads && id <= k ensures id + [0] <= k || id + [1] <= k {
      if !(id + [1] <= k) {
        assert AgreeAt(after, mid, k);
      }
    }
  }

  lemma BranchAnnotated(g: Context, n: ASTNode, id: NodeId, func: Option<NodeId>, after: State, r: State)
    requires n.IfStmt? || n.WhileStmt?
    requires Annotated(g, n.body, id + [1], func, after) && Outside(r, after, id + [0])
    requires Annotated(g, n.cond, id + [0], func, r) && ResolvedTo(g, n.cond, id + [0], BOOL, r)
    ensures Annotated(g, n, id, func, r)
  {
    hide ResolvedTo, Resolved;
    forall k | id + [1] <= k ensures SameRecord(g.decls, after, r, k) {
      ChildrenAreApart(id, 1, 0, k);
      assert AgreeAt(r, after, k);
    }
    AnnotatedStays(g, n.body, id + [1], func, after, r);
    NoExpression(g, n, id, r);
    assert n.Children()[0] == n.cond && n.Children()[1] == n.body;
  }

  lemma NoExpression(g: Context, n: ASTNode, id: NodeId, r: State)
    requires n.IfStmt? || n.WhileStmt? || n.CompoundStmt? || n.ProgramDecl? || n.FunctionDecl? || n.ParamVarDecls?
    ensures !Simple(n) && Resolved(g, n, id, r)
  {
  }

  // ---------- blocks and programs ----------

  ghost predicate WellTypedFrom(g: Context, n: ASTNode, i: nat, id: NodeId, func: Option<NodeId>) {
    forall j | i <= j < |n.Children()| :: WellTyped(g, n.Children()[j], id + [j], func)
  }

  predicate IsList(n: ASTNode) {
    n.CompoundStmt? || n.ProgramDecl?
  }

  lemma AnnotatedOutside(g: Context, child: ASTNode, id: NodeId, i: nat, func: Option<NodeId>, mid: State, r: State)
    requires Annotated(g, child, id + [i], func, mid) && OutsideFrom(r, mid, id, i + 1)
    ensures Annotated(g, child, id + [i], func, r)
  {
    forall k | id + [i] <= k ensures SameRecord(g.decls, mid, r, k) {
      BelowChild(id, i, k);
      assert AgreeAt(r, mid, k);
    }
    AnnotatedStays(g, child, id + [i], func, mid, r);
  }

  /** The children of a list are judged one after the other. */
  lemma {:induction false} ListVisited(g: Context, syms: Symbols, n: ASTNode, i: nat, id: NodeId, st: State)
    requires IsList(n) && Checkable(n) && i <= |n.Children()| && (n.ProgramDecl? ==> st.func.None?)
    requires Fine(st) && Matches(g, syms) && AheadFrom(g, st, id, i)
    ensures var r := VisitFrom(syms, n, i, id, st);
            && (Fine(r) ==> r.func == st.func)
            && (WellTypedFrom(g, n, i, id, st.func) <==> Fine(r) && SettledFrom(r, id, i))
            && (WellTypedFrom(g, n, i, id, st.func) ==> AnnotatedFrom(g, n, i, id, st.func, r))
    decreases n, |n.Children()| - i
  {
    hide Visit, Annotated, WellTyped, AheadFrom, NoneWaitsFrom, Settled, SettledFrom, Symbols.Valid, Collected;
    AheadFromWaits(g, st, id, i);
    if i == |n.Children()| {
      NoneWaitsBehind(st, id, i);
    } else {
      var child := n.Children()[i];
      ListChild(n, i);
      AheadOfChild(g, st, id, i);
      NodeVisited(g, syms, child, id + [i], st);
      var mid := Visit(syms, child, id + [i], st);
      var r := VisitFrom(syms, n, i + 1, id, mid);
      VisitFrames(syms, child, id + [i], st);
      AheadBehindChild(g, st, mid, id, i);
      VisitFromFrames(syms, n, i + 1, id, mid);
      SettledStepwise(st, mid, r, id, i);
      if Fine(mid) {
        ListVisited(g, syms, n, i + 1, id, mid);
        if WellTypedFrom(g, n, i, id, st.func) {
          AnnotatedOutside(g, child, id, i, st.func, mid, r);
        }
      }
    }
  }

  lemma NoneWaitsBehind(st: State, id: NodeId, i: nat)
    requires NoneWaitsFrom(st, id, i)
    ensures SettledFrom(st, id, i)
  {
  }

  lemma ListChild(n: ASTNode, i: nat)
    requires IsList(n) && Checkable(n) && i < |n.Children()|
    ensures Checkable(n.Children()[i]) && !n.Children()[i].ProgramDecl?
    ensures n.CompoundStmt? ==> !n.Children()[i].FunctionDecl?
  {
  }

  lemma ListJudged(g: Context, syms: Symbols, n: ASTNode, id: NodeId, st: State)
    requires IsList(n) && Checkable(n) && (n.ProgramDecl? ==> st.func.None?)
    requires Fine(st) && Matches(g, syms) && Ahead(g, st, id)
    ensures Judged(g, n, id, st, Visit(syms, n, id, st))
    decreases n, |n.Children()| + 1
  {
    hide Annotated, WellTyped, Settled, SettledFrom, Checkable, AnnotatedFrom, WellTypedFrom, Ahead, AheadFrom;
    hide Symbols.Valid, Collected;
    AheadOfAll(g, st, id);
    AheadWaits(g, st, id);
    ListVisited(g, syms, n, 0, id, st);
    VisitFromFrames(syms, n, 0, id, st);
    ListIsEntered(syms, n, id, st);
    var r := VisitFrom(syms, n, 0, id, st);
    ListSettled(st, r, id);
    ListIsTyped(g, n, id, st.func, r);
  }

  lemma ListIsEntered(syms: Symbols, n: ASTNode, id: NodeId, st: State)
    requires IsList(n)
    ensures Visit(syms, n, id, st) == VisitFrom(syms, n, 0, id, st)
  {
    hide VisitFrom;
  }

  lemma ListSettled(st: State, r: State, id: NodeId)
    requires NoneWaits(st, id) && OutsideFrom(r, st, id, 0)
    ensures Settled(r, id) <==> SettledFrom(r, id, 0)
  {
    assert AgreeAt(r, st, id);
    assert forall k | k in r.overloads && id <= k && k != id :: BelowFrom(id, 0, k);
  }

  lemma ListIsTyped(g: Context, n: ASTNode, id: NodeId, func: Option<NodeId>, r: State)
    requires IsList(n)
    ensures WellTyped(g, n, id, func) <==> WellTypedFrom(g, n, 0, id, func)
    ensures AnnotatedFrom(g, n, 0, id, func, r) ==> Annotated(g, n, id, func, r)
  {
    NoExpression(g, n, id, r);
  }

  // ---------- functions ----------

  lemma {:induction false} ParametersVisited(syms: Symbols, n: ASTNode, i: nat, id: NodeId, st: State)
    requires n.ParamVarDecls? && i <= |n.parameters|
    requires forall j | 0 <= j < |n.parameters| :: n.parameters[j].VarDecl? && n.parameters[j].init.Null?
    ensures VisitFrom(syms, n, i, id, st) == st
    decreases |n.parameters| - i
  {
    hide Visit;
    if i < |n.parameters| {
      LeafVisited(syms, n.parameters[i], id + [i], st);
      ParametersVisited(syms, n, i + 1, id, st);
    }
  }

  lemma ParametersAnnotated(g: Context, n: ASTNode, id: NodeId, func: Option<NodeId>, st: State)
    requires n.ParamVarDecls?
    requires forall j | 0 <= j < |n.parameters| :: n.parameters[j].VarDecl? && n.parameters[j].init.Null?
    ensures Annotated(g, n, id, func, st)
  {
    NoExpression(g, n, id, st);
    forall j | 0 <= j < |n.parameters| ensures Annotated(g, n.parameters[j], id + [j], func, st) {
      LeafAnnotated(g, n.parameters[j], id + [j], func, st);
    }
  }

  lemma FunctionIsEntered(syms: Symbols, n: ASTNode, id: NodeId, st: State)
    requires n.FunctionDecl? && Checkable(n)
    ensures Visit(syms, n, id, st) == Visit(syms, n.body, id + [1], st.(func := Some(id))).(func := None)
  {
    assert n.Children() == [n.params, n.body] && n.Children()[0] == n.params && n.Children()[1] == n.body;
    var inner := st.(func := Some(id));
    var r := Visit(syms, n.body, id + [1], inner);
    ParametersVisited(syms, n.params, 0, id + [0], inner);
    assert Visit(syms, n.params, id + [0], inner) == inner;
    hide Visit, Checkable, ASTNode.Children;
    assert VisitFrom(syms, n, 2, id, r) == r;
    assert VisitFrom(syms, n, 1, id, inner) == r;
    assert VisitFrom(syms, n, 0, id, inner) == r;
  }

  lemma FunctionJudged(g: Context, syms: Symbols, n: ASTNode, id: NodeId, st: State)
    requires n.FunctionDecl? && Checkable(n) && st.func.None?
    requires Fine(st) && Matches(g, syms) && Ahead(g, st, id)
    ensures Judged(g, n, id, st, Visit(syms, n, id, st))
    decreases n, |n.Children()| + 1
  {
    FunctionIsEntered(syms, n, id, st);
    hide Visit, Annotated, Settled;
    var inner := st.(func := Some(id));
    var r := Visit(syms, n.body, id + [1], inner);
    AheadChild(g, st, id, 1);
    AheadWaits(g, st, id);
    assert Checkable(n.body) && Ahead(g, inner, id + [1]) by {
      forall k | id + [1] <= k ensures NewAt(g, inner, k) {
        assert NewAt(g, st, k);
      }
    }
    NodeVisited(g, syms, n.body, id + [1], inner);
    VisitFrames(syms, n.body, id + [1], inner);
    assert Outside(r, st, id + [1]) by {
      forall k | !(id + [1] <= k) ensures AgreeAt(r, st, k) {
        assert AgreeAt(r, inner, k);
      }
    }
    OnlyBelowChild(st, r, id, 1);
    if WellTyped(g, n.body, id + [1], Some(id)) {
      FunctionAnnotated(g, n, id, r);
    }
  }

  lemma FunctionAnnotated(g: Context, n: ASTNode, id: NodeId, r: State)
    requires n.FunctionDecl? && Checkable(n) && Annotated(g, n.body, id + [1], Some(id), r)
    ensures Annotated(g, n, id, None, r.(func := None))
  {
    var r' := r.(func := None);
    AnnotatedStays(g, n.body, id + [1], Some(id), r, r');
    ParametersAnnotated(g, n.params, id + [0], Some(id), r');
    NoExpression(g, n, id, r');
    assert n.Children()[0] == n.params && n.Children()[1] == n.body;
  }

  // ---------- any node ----------

  lemma BranchVisited(g: Context, syms: Symbols, n: ASTNode, id: NodeId, st: State)
    requires (n.IfStmt? || n.WhileStmt?) && Checkable(n)
    requires Fine(st) && Matches(g, syms) && Ahead(g, st, id)
    ensures Judged(g, n, id, st, Visit(syms, n, id, st))
    decreases n, |n.Children()| + 1
  {
    BranchIsEntered(syms, n, id, st);
    hide Visit, Annotated, Settled, Simple, Understood, Evaluates, Ahead, Symbols.Valid, Collected;
    var e, body := n.cond, n.body;
    ConditionVisited(g, syms, e, id, st);
    var mid := Visit(syms, e, id + [0], st);
    if Fine(mid) {
      NodeVisited(g, syms, body, id + [1], mid);
    }
    var after := Visit(syms, body, id + [1], mid);
    ConditionJudged(g, syms, n, e, body, id, st, after, Visit(syms, n, id, st));
  }

  lemma BranchIsEntered(syms: Symbols, n: ASTNode, id: NodeId, st: State)
    requires (n.IfStmt? || n.WhileStmt?)
    ensures var after := Visit(syms, n.body, id + [1], Visit(syms, n.cond, id + [0], st));
            Visit(syms, n, id, st) == if after.failed then after else Expect(syms, n.cond, id + [0], BOOL, after)
  {
    assert n.Children() == [n.cond, n.body] && n.Children()[0] == n.cond && n.Children()[1] == n.body;
    var after := Visit(syms, n.body, id + [1], Visit(syms, n.cond, id + [0], st));
    hide Expect;
    assert VisitFrom(syms, n, 2, id, after) == after;
    assert VisitFrom(syms, n, 1, id, Visit(syms, n.cond, id + [0], st)) == after;
    assert VisitFrom(syms, n, 0, id, st) == after;
  }

  lemma ExpressionIsTyped(g: Context, n: ASTNode, id: NodeId, func: Option<NodeId>)
    requires Simple(n)
    ensures WellTyped(g, n, id, func) <==> HasSomeType(g, n, id)
  {
    SimpleIsNoStmt(n);
    hide HasSomeType;
  }

  lemma ExpressionVisited(g: Context, syms: Symbols, n: ASTNode, id: NodeId, st: State)
    requires Simple(n) && Fine(st) && Matches(g, syms) && Ahead(g, st, id)
    ensures Judged(g, n, id, st, Visit(syms, n, id, st))
  {
    hide Visit, Annotated, Settled, HasSomeType, Simple, Matches, Ahead;
    AnyVisited(g, syms, n, id, st.func, st);
    ExpressionIsTyped(g, n, id, st.func);
  }

  /** The verdict on every node: by the rules. */
  lemma NodeVisited(g: Context, syms: Symbols, n: ASTNode, id: NodeId, st: State)
    requires Checkable(n) && (n.FunctionDecl? || n.ProgramDecl? ==> st.func.None?)
    requires Fine(st) && Matches(g, syms) && Ahead(g, st, id)
    ensures Judged(g, n, id, st, Visit(syms, n, id, st))
    decreases n, |n.Children()| + 2
  {
    hide Visit, Judged, Ahead, Matches;
    if n.ProgramDecl? || n.CompoundStmt? {
      ListJudged(g, syms, n, id, st);
    } else if n.FunctionDecl? {
      FunctionJudged(g, syms, n, id, st);
    } else if n.VarDecl? {
      VarVisited(g, syms, n, id, st);
    } else if n.IfStmt? || n.WhileStmt? {
      BranchVisited(g, syms, n, id, st);
    } else if n.ReturnStmt? {
      ReturnVisited(g, syms, n, id, st);
    } else if n.SyncStmt? || (n.PrintStmt? && n.message.Null?) || IsMissing(n) {
      QuietVisited(g, syms, n, id, st);
    } else if n.PrintStmt? {
      WrapperVisited(g, syms, n, n.message, id, st);
    } else if n.ScanStmt? {
      WrapperVisited(g, syms, n, n.input, id, st);
    } else if n.SleepStmt? {
      WrapperVisited(g, syms, n, n.count, id, st);
    } else if n.SpawnExpr? {
      WrapperVisited(g, syms, n, n.call, id, st);
    } else {
      ExpressionVisited(g, syms, n, id, st);
    }
  }

  lemma QuietVisited(g: Context, syms: Symbols, n: ASTNode, id: NodeId, st: State)
    requires n.SyncStmt? || (n.PrintStmt? && n.message.Null?) || IsMissing(n)
    requires Fine(st) && Ahead(g, st, id)
    ensures Judged(g, n, id, st, Visit(syms, n, id, st))
  {
    hide Visit, Annotated, Settled, Ahead;
    LeafVisited(syms, n, id, st);
    AheadWaits(g, st, id);
    LeafAnnotated(g, n, id, st.func, st);
  }

  // ---------- whole programs ----------

  /** The last step makes errors of the ambiguous calls and binds the others. */
  lemma FinishBinds(syms: Symbols, st: State, k: NodeId)
    requires syms.Valid() && Collected(syms.table)
    ensures SameRecord(DeclarationsIn(syms.table), st, Finished(syms, st).(overloads := map[]), k)
  {
    hide Entry;
    var d := Target(st, k);
    if d.Some? && IsFunction(DeclarationsIn(syms.table), d.value) && k in st.overloads {
      EntryIsItself(syms, d.value);
      assert LastBinding(syms, k, st) == Some(d.value);
    }
  }

  /** The type checker reports nothing on a program, and does not break down, if and only if the
      program is well typed by the rules as coded. The type of every expression is then recorded, and every call is
      bound to a function that it may mean and that returns what is asked for. */
  lemma VerdictIsTyping(syms: Symbols, root: ASTNode, uses: map<NodeId, NodeId>)
    requires root.ProgramDecl? && Checkable(root) && syms.Valid() && Collected(syms.table)
    ensures var g, st := Context(DeclarationsIn(syms.table), uses, Coded(syms.noise)), Checked(syms, root, uses);
            && (WellTyped(g, root, [], None) <==> !st.failed && st.errors == 0)
            && (WellTyped(g, root, [], None) ==> Annotated(g, root, [], None, st.(overloads := map[])))
  {
    var g := Context(DeclarationsIn(syms.table), uses, Coded(syms.noise));
    NodeVisited(g, syms, root, [], Start(uses));
    hide Visit, Checkable, WellTyped, Annotated;
    var st := Visit(syms, root, [], Start(uses));
    assert |Ambiguous(st.overloads)| == 0 <==> Ambiguous(st.overloads) == {};
    assert Settled(st, []) <==> Ambiguous(st.overloads) == {} by {
      assert forall k | k in st.overloads :: [] <= k && (k in Ambiguous(st.overloads) <==> |st.overloads[k]| > 1);
    }
    if WellTyped(g, root, [], None) {
      forall k ensures SameRecord(DeclarationsIn(syms.table), st, Finished(syms, st).(overloads := map[]), k) {
        FinishBinds(syms, st, k);
      }
      AnnotatedStays(g, root, [], None, st, Finished(syms, st).(overloads := map[]));
    }
  }
}
