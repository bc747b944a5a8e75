/** The type checker finds no error exactly in the programs the typing rules accept, and then it
    has recorded the type of every expression and resolved every call. */
module TypingSoundness {
  import opened Ast
  import opened LexicalScoping
  import opened SymbolTable
  import opened TypeChecking
  import opened TypingRules
  import opened TableDeclarations
  import opened TypingFrames
  import opened TypingExpressions
  import opened TypingCalls
  import opened TypingVisits

  predicate Fine(st: State) {
    !st.failed && st.errors == 0
  }

  /** No call at `id` or below is waiting to be resolved. */
  ghost predicate NoneWaits(st: State, id: NodeId) {
    forall k | k in st.overloads :: !(id <= k)
  }

  /** No call at `id` or below is ambiguous. */
  ghost predicate Settled(st: State, id: NodeId) {
    forall k | k in st.overloads && id <= k :: |st.overloads[k]| <= 1
  }

  ghost predicate SettledFrom(st: State, id: NodeId, i: nat) {
    forall k | k in st.overloads && BelowFrom(id, i, k) :: |st.overloads[k]| <= 1
  }

  ghost predicate NoneWaitsFrom(st: State, id: NodeId, i: nat) {
    forall k | k in st.overloads :: !BelowFrom(id, i, k)
  }

  lemma AheadWaits(g: Context, st: State, id: NodeId)
    requires Ahead(g, st, id)
    ensures NoneWaits(st, id) && Settled(st, id)
  {
    forall k | id <= k ensures k !in st.overloads {
      assert NewAt(g, st, k);
    }
  }

  lemma AheadFromWaits(g: Context, st: State, id: NodeId, i: nat)
    requires AheadFrom(g, st, id, i)
    ensures NoneWaitsFrom(st, id, i) && SettledFrom(st, id, i)
  {
    forall k | BelowFrom(id, i, k) ensures k !in st.overloads {
      assert NewAt(g, st, k);
    }
  }

  /** Later children do not change whether an earlier one is settled. */
  lemma SettledStepwise(st: State, mid: State, r: State, id: NodeId, i: nat)
    requires NoneWaitsFrom(st, id, i) && Outside(mid, st, id + [i]) && OutsideFrom(r, mid, id, i + 1)
    ensures SettledFrom(r, id, i) <==> Settled(mid, id + [i]) && SettledFrom(r, id, i + 1)
  {
    forall k | k in mid.overloads && id + [i] <= k
      ensures BelowFrom(id, i, k) && k in r.overloads && r.overloads[k] == mid.overloads[k]
    {
      BelowChild(id, i, k);
      assert AgreeAt(r, mid, k);
    }
    forall k | k in r.overloads && BelowFrom(id, i, k) && !BelowFrom(id, i + 1, k)
      ensures id + [i] <= k && k in mid.overloads && r.overloads[k] == mid.overloads[k]
    {
      BelowChild(id, i, k);
      assert AgreeAt(r, mid, k);
    }
  }

  // ---------- what a run records ----------

  /** The function a call is resolved to: the only candidate that is left, or the one bound. */
  function Target(st: State, id: NodeId): Option<NodeId> {
    if id in st.overloads then (if |st.overloads[id]| == 1 then Some(st.overloads[id][0]) else None)
    else if id in st.uses then Some(st.uses[id]) else None
  }

  /** The type that a node asks of its `i`-th child. */
  function AskedType(g: Context, n: ASTNode, i: nat, id: NodeId, func: Option<NodeId>): Option<Type> {
    if Resolves(n, i) then Some(NUMBER)
    else if i != 0 then None
    else if n.IfStmt? || n.WhileStmt? then Some(BOOL)
    else if n.VarDecl? then DeclaredType(g.decls, id)
    else if n.ReturnStmt? then ResultOf(g.decls, func)
    else None
  }

  ghost predicate Resolved(g: Context, n: ASTNode, id: NodeId, st: State) {
    n.CallExpr? ==> Target(st, id).Some? && Means(g, n, id, Target(st, id).value)
  }

  ghost predicate ResolvedTo(g: Context, n: ASTNode, id: NodeId, ty: Type, st: State) {
    n.CallExpr? ==> Target(st, id).Some? && Gives(g.decls, Target(st, id).value, ty)
  }

  /** Every expression that is no call has its type recorded; every call is resolved to a function
      it may mean, which returns what is asked for. */
  ghost predicate Annotated(g: Context, n: ASTNode, id: NodeId, func: Option<NodeId>, st: State)
    decreases n
  {
    && (Simple(n) && !n.CallExpr? ==> HasItsType(g, n, id, st))
    && Resolved(g, n, id, st)
    && AnnotatedFrom(g, n, 0, id, if n.FunctionDecl? then Some(id) else func, st)
  }

  ghost predicate AnnotatedFrom(g: Context, n: ASTNode, i: nat, id: NodeId, func: Option<NodeId>, st: State)
    decreases n, 0
  {
    forall j | i <= j < |n.Children()| ::
      && Annotated(g, n.Children()[j], id + [j], func, st)
      && (AskedType(g, n, j, id, func).Some? ==>
           ResolvedTo(g, n.Children()[j], id + [j], AskedType(g, n, j, id, func).value, st))
  }

  predicate IsFunction(decls: Declarations, d: NodeId) {
    d in decls && decls[d].Function?
  }

  /** The type recorded at `k`, and the function that a call there is resolved to, are the same. */
  predicate SameRecord(decls: Declarations, a: State, b: State, k: NodeId) {
    && (k in a.types ==> k in b.types && b.types[k] == a.types[k])
    && (Target(a, k).Some? && IsFunction(decls, Target(a, k).value) ==> Target(b, k) == Target(a, k))
  }

  lemma {:induction false} AnnotatedStays(g: Context, n: ASTNode, id: NodeId, func: Option<NodeId>, a: State, b: State)
    requires Annotated(g, n, id, func, a) && forall k | id <= k :: SameRecord(g.decls, a, b, k)
    ensures Annotated(g, n, id, func, b)
    decreases n
  {
    hide TypeOf, Simple, AskedType;
    assert id <= id && SameRecord(g.decls, a, b, id);
    OwnAnnotationStays(g, n, id, a, b);
    hide Target, Resolved, HasItsType;
    var inner := if n.FunctionDecl? then Some(id) else func;
    forall i | 0 <= i < |n.Children()|
      ensures Annotated(g, n.Children()[i], id + [i], inner, b)
      ensures AskedType(g, n, i, id, inner).Some? ==>
                ResolvedTo(g, n.Children()[i], id + [i], AskedType(g, n, i, id, inner).value, b)
    {
      assert Annotated(g, n.Children()[i], id + [i], inner, a);
      forall k | id + [i] <= k ensures SameRecord(g.decls, a, b, k) {
        BelowChild(id, i, k);
      }
      AnnotatedStays(g, n.Children()[i], id + [i], inner, a, b);
      assert id + [i] <= id + [i] && SameRecord(g.decls, a, b, id + [i]);
      ResolutionStays(g, n.Children()[i], id + [i], inner, a, b);
    }
  }

  lemma OwnAnnotationStays(g: Context, n: ASTNode, id: NodeId, a: State, b: State)
    requires SameRecord(g.decls, a, b, id)
    ensures Resolved(g, n, id, a) ==> Resolved(g, n, id, b)
    ensures HasItsType(g, n, id, a) ==> HasItsType(g, n, id, b)
  {
    hide TypeOf, Target, Means;
    if Resolved(g, n, id, a) && n.CallExpr? {
      MeansFunction(g, n, id, Target(a, id).value);
    }
  }

  lemma MeansFunction(g: Context, n: ASTNode, id: NodeId, d: NodeId)
    requires n.CallExpr? && Means(g, n, id, d)
    ensures IsFunction(g.decls, d)
  {
  }

  lemma ResolutionStays(g: Context, n: ASTNode, id: NodeId, func: Option<NodeId>, a: State, b: State)
    requires SameRecord(g.decls, a, b, id) && Annotated(g, n, id, func, a)
    ensures forall ty :: ResolvedTo(g, n, id, ty, a) ==> ResolvedTo(g, n, id, ty, b)
  {
    hide TypeOf, Target, AnnotatedFrom, Simple, Means;
    if n.CallExpr? {
      MeansFunction(g, n, id, Target(a, id).value);
    }
  }

  /** A call may mean one function only exactly when it has one candidate. */
  lemma OneCandidate(g: Context, n: ASTNode, id: NodeId, st: State)
    requires n.CallExpr? && HasCandidates(g, n, id, st) && Evaluates(g, n, id)
    ensures (forall d, e :: Means(g, n, id, d) && Means(g, n, id, e) ==> d == e) <==> |st.overloads[id]| <= 1
    ensures |st.overloads[id]| <= 1 ==> Resolved(g, n, id, st)
  {
    hide Means;
    var s := st.overloads[id];
    var d :| Means(g, n, id, d);
    assert d in s;
    if |s| > 1 {
      assert s[0] in s && s[1] in s && s[0] != s[1];
      assert Means(g, n, id, s[0]) && Means(g, n, id, s[1]);
    } else {
      assert s == [d];
    }
  }

  // ---------- what is left ambiguous ----------

  /** What waits tells which calls in a visited expression are ambiguous. */
  ghost predicate Tells(g: Context, n: ASTNode, id: NodeId, st: State) {
    (Settled(st, id) <==> Unambiguous(g, n, id)) && (SettledFrom(st, id, 0) <==> Inner(g, n, id))
  }

  ghost predicate TellsFrom(g: Context, n: ASTNode, i: nat, id: NodeId, st: State) {
    forall j | i <= j < |n.Children()| :: Tells(g, n.Children()[j], id + [j], st)
  }

  ghost predicate UnambiguousFrom(g: Context, n: ASTNode, i: nat, id: NodeId) {
    forall j | i <= j < |n.Children()| :: Unambiguous(g, n.Children()[j], id + [j])
  }

  lemma TellsStays(g: Context, n: ASTNode, id: NodeId, a: State, b: State)
    requires Tells(g, n, id, a) && forall k | id <= k :: AgreeAt(a, b, k)
    ensures Tells(g, n, id, b)
  {
    hide Unambiguous, Inner;
    forall k | id <= k
      ensures (k in a.overloads <==> k in b.overloads) && (k in a.overloads ==> a.overloads[k] == b.overloads[k])
    {
      assert AgreeAt(a, b, k);
    }
    assert forall k | BelowFrom(id, 0, k) :: id <= k;
  }

  /** The children of an expression, visited one after the other. */
  lemma {:induction false} ChildrenSettle(g: Context, syms: Symbols, n: ASTNode, i: nat, id: NodeId, st: State)
    requires Simple(n) && i <= |n.Children()| && !st.failed && Matches(g, syms) && AheadFrom(g, st, id, i)
    requires EvaluatesFrom(g, n, i, id)
    ensures var r := VisitFrom(syms, n, i, id, st);
            && (SettledFrom(r, id, i) <==> UnambiguousFrom(g, n, i, id)) && TellsFrom(g, n, i, id, r)
            && NoneWaitsFrom(r, id, |n.Children()|)
    decreases n, |n.Children()| - i
  {
    hide Visit, Simple, Evaluates, Kept, Unambiguous, Tells, OutsideFrom, AheadFrom, Symbols.Valid, Collected;
    hide SettledFrom, NoneWaitsFrom;
    if i == |n.Children()| {
      AheadFromWaits(g, st, id, i);
    } else {
      var child := n.Children()[i];
      var mid := Visit(syms, child, id + [i], st);
      SimpleChild(n, i);
      AheadOfChild(g, st, id, i);
      AheadFromWaits(g, st, id, i);
      SimpleVisited(g, syms, child, id + [i], st);
      SimpleSettles(g, syms, child, id + [i], st);
      VisitFrames(syms, child, id + [i], st);
      AheadBehindChild(g, st, mid, id, i);
      ChildrenSettle(g, syms, n, i + 1, id, mid);
      VisitFromFrames(syms, n, i + 1, id, mid);
      var r := VisitFrom(syms, n, i + 1, id, mid);
      SettledStepwise(st, mid, r, id, i);
      ToldBefore(g, child, id, i, mid, r);
    }
  }

  lemma ToldBefore(g: Context, child: ASTNode, id: NodeId, i: nat, mid: State, r: State)
    requires Tells(g, child, id + [i], mid) && OutsideFrom(r, mid, id, i + 1)
    ensures Tells(g, child, id + [i], r) && (Settled(mid, id + [i]) <==> Unambiguous(g, child, id + [i]))
  {
    hide Unambiguous, Inner;
    forall k | id + [i] <= k ensures AgreeAt(mid, r, k) {
      BelowChild(id, i, k);
      assert AgreeAt(r, mid, k);
    }
    TellsStays(g, child, id + [i], mid, r);
  }

  /** No call waits when the visit begins. What it leaves is settled exactly when no call in the
      expression is ambiguous: calls inside are not resolved by the place they stand in, but for
      indices. */
  lemma {:induction false} SimpleSettles(g: Context, syms: Symbols, n: ASTNode, id: NodeId, st: State)
    requires Simple(n) && !st.failed && Matches(g, syms) && Ahead(g, st, id) && Evaluates(g, n, id)
    ensures Tells(g, n, id, Visit(syms, n, id, st))
    decreases n, |n.Children()| + 1
  {
    PartsEvaluate(g, n, id);
    AheadOfAll(g, st, id);
    ChildrenVisited(g, syms, n, 0, id, st);
    ChildrenSettle(g, syms, n, 0, id, st);
    VisitFromFrames(syms, n, 0, id, st);
    SimpleIsEntered(syms, n, id, st);
    hide Visit, VisitFrom, Handle, Simple, KeptFrom, Evaluates, EvaluatesFrom, Ahead, AheadFrom, OutsideFrom;
    hide Symbols.Valid, Collected, Tells, TellsFrom, NoneWaitsFrom, SettledFrom, UnambiguousFrom;
    var mid := VisitFrom(syms, n, 0, id, st);
    StillNew(g, st, mid, id);
    SimpleHandled(g, syms, n, id, mid);
    HandledSettles(g, syms, n, id, mid);
  }

  /** What the handler does to the calls that wait. */
  lemma HandledSettles(g: Context, syms: Symbols, n: ASTNode, id: NodeId, st: State)
    requires Simple(n) && !st.failed && Matches(g, syms) && PartsVisited(g, n, id, st) && Evaluates(g, n, id)
    requires (SettledFrom(st, id, 0) <==> UnambiguousFrom(g, n, 0, id)) && TellsFrom(g, n, 0, id, st)
    requires NoneWaitsFrom(st, id, |n.Children()|)
    ensures Tells(g, n, id, Handle(syms, n, id, st))
  {
    hide Settled, SettledFrom, NoneWaitsFrom, TellsFrom, UnambiguousFrom, Tells, PartsVisited, Simple, Evaluates;
    hide Symbols.Valid, Collected;
    if n.CallExpr? {
      CallTells(g, syms, n, id, st);
    } else if n.IndexedExpr? {
      IndexedTells(g, syms, n, id, st);
    } else {
      TypedTells(g, syms, n, id, st);
    }
  }

  /** Without an index every part must be unambiguous. */
  lemma InnerByParts(g: Context, n: ASTNode, id: NodeId)
    requires !n.IndexedExpr?
    ensures Inner(g, n, id) <==> UnambiguousFrom(g, n, 0, id)
  {
    hide Unambiguous;
  }

  lemma CallTells(g: Context, syms: Symbols, n: ASTNode, id: NodeId, st: State)
    requires n.CallExpr? && Simple(n) && !st.failed && Matches(g, syms) && PartsVisited(g, n, id, st) && Evaluates(g, n, id)
    requires SettledFrom(st, id, 0) <==> UnambiguousFrom(g, n, 0, id)
    ensures Tells(g, n, id, HandleCall(syms, n, id, st))
  {
    forall j | 0 <= j < |n.args| ensures Own(g, n.args[j], id + [j], st) {
      PartKept(g, n, j, id, st);
    }
    hide Own, Simple, Symbols.Valid, Collected, HandleCall, SettledFrom, Settled, UnambiguousFrom, Inner, Means;
    hide PartsVisited, Evaluates;
    hide HasCandidates, Unambiguous;
    PartsEvaluate(g, n, id);
    CallHandled(g, syms, n, id, st);
    var r := HandleCall(syms, n, id, st);
    CandidatesTell(g, n, id, r);
    CallSettlement(st, r, id);
    InnerByParts(g, n, id);
  }

  lemma CallSettlement(mid: State, r: State, id: NodeId)
    requires id in r.overloads && r.overloads == mid.overloads[id := r.overloads[id]]
    ensures Settled(r, id) <==> |r.overloads[id]| <= 1 && SettledFrom(r, id, 0)
    ensures SettledFrom(r, id, 0) <==> SettledFrom(mid, id, 0)
  {
    assert id in r.overloads && id <= id;
    forall k | k in r.overloads ensures id <= k && k != id <==> BelowFrom(id, 0, k) {
    }
    forall k | k in mid.overloads && BelowFrom(id, 0, k) ensures id <= k && k in r.overloads {
    }
  }

  lemma CandidatesTell(g: Context, n: ASTNode, id: NodeId, st: State)
    requires n.CallExpr? && HasCandidates(g, n, id, st) && Evaluates(g, n, id)
    ensures id in st.overloads && (Unambiguous(g, n, id) <==> |st.overloads[id]| <= 1 && Inner(g, n, id))
  {
    OneCandidate(g, n, id, st);
    hide Means, Inner, Evaluates;
  }

  lemma TypedTells(g: Context, syms: Symbols, n: ASTNode, id: NodeId, st: State)
    requires Simple(n) && !n.CallExpr? && !n.IndexedExpr? && !st.failed && Matches(g, syms)
    requires PartsVisited(g, n, id, st) && Evaluates(g, n, id)
    requires SettledFrom(st, id, 0) <==> UnambiguousFrom(g, n, 0, id)
    ensures Tells(g, n, id, Handle(syms, n, id, st))
  {
    hide Symbols.Valid, Collected, SettledFrom, Settled, UnambiguousFrom, Inner, PartsVisited, HandleArray;
    hide HandleBinary, TypeOf;
    assert id !in st.overloads by { NewWaitsNot(g, n, id, st); }
    if n.ArrayExpr? {
      ArrayHandled(g, n, id, st);
    } else if n.BinaryExpr? {
      BinaryHandled(g, syms, n, id, st);
    } else {
      LeafHandled(g, syms, n, id, st);
    }
    InnerByParts(g, n, id);
    SettledBelow(st, Handle(syms, n, id, st), id);
  }

  lemma NewWaitsNot(g: Context, n: ASTNode, id: NodeId, st: State)
    requires PartsVisited(g, n, id, st)
    ensures id !in st.overloads
  {
    hide KeptFrom, EvaluatesFrom;
  }

  lemma SettledBelow(st: State, r: State, id: NodeId)
    requires r.overloads == st.overloads && id !in st.overloads
    ensures (Settled(r, id) <==> SettledFrom(st, id, 0)) && (SettledFrom(r, id, 0) <==> SettledFrom(st, id, 0))
  {
    forall k | k in r.overloads ensures id <= k <==> BelowFrom(id, 0, k) {
      assert k != id;
    }
  }

  lemma IndexedTells(g: Context, syms: Symbols, n: ASTNode, id: NodeId, st: State)
    requires n.IndexedExpr? && Simple(n) && !st.failed && Matches(g, syms)
    requires PartsVisited(g, n, id, st) && Evaluates(g, n, id) && TellsFrom(g, n, 0, id, st)
    requires NoneWaitsFrom(st, id, |n.Children()|)
    ensures Tells(g, n, id, HandleIndexed(syms, n, id, st))
  {
    assert n.Children() == [n.ident, n.index] && n.Children()[0] == n.ident && n.Children()[1] == n.index;
    assert Tells(g, n.ident, id + [0], st) && Tells(g, n.index, id + [1], st);
    PartKept(g, n, 1, id, st);
    SimpleChild(n, 1);
    IndexedTypeOf(g, n, id);
    TypeEvaluates(g, n, id);
    SimpleChecked(g, syms, n.index, id + [1], NUMBER, st);
    NewWaitsNot(g, n, id, st);
    InnerOfIndexed(g, n, id);
    hide Check, TypeOf, MayHave, PartsVisited, Evaluates, Simple, Symbols.Valid, Collected, Means, Settled;
    hide SettledFrom, Inner, Own, Kept;
    var (good, after) := Check(syms, n.index, id + [1], NUMBER, st);
    if n.index.CallExpr? {
      BoundSettles(st, after, id + [1]);
      assert after.overloads == st.overloads - {id + [1]};
    } else {
      PlainInner(g, n.index, id + [1]);
    }
    IndexSettlement(st, after, id);
    SettledBelow(after, HandleIndexed(syms, n, id, st), id);
  }

  lemma PlainInner(g: Context, n: ASTNode, id: NodeId)
    requires !n.CallExpr?
    ensures Unambiguous(g, n, id) <==> Inner(g, n, id)
  {
    hide Inner;
  }

  lemma InnerOfIndexed(g: Context, n: ASTNode, id: NodeId)
    requires n.IndexedExpr?
    ensures Inner(g, n, id) <==> Unambiguous(g, n.ident, id + [0]) && Inner(g, n.index, id + [1])
  {
    assert n.Children() == [n.ident, n.index] && n.Children()[0] == n.ident && n.Children()[1] == n.index;
    hide Unambiguous;
  }

  lemma IndexSettlement(st: State, after: State, id: NodeId)
    requires NoneWaitsFrom(st, id, 2) && id !in st.overloads
    requires after.overloads == st.overloads || after.overloads == st.overloads - {id + [1]}
    ensures SettledFrom(after, id, 0) <==> Settled(st, id + [0]) && Settled(after, id + [1])
    ensures id !in after.overloads
  {
    forall k | k in after.overloads && BelowFrom(id, 0, k) ensures id + [0] <= k || id + [1] <= k {
      assert !BelowFrom(id, 2, k);
      BelowChild(id, 0, k);
      BelowChild(id, 1, k);
    }
    forall k | id + [0] <= k ensures BelowFrom(id, 0, k) && k != id + [1] {
      BelowChild(id, 0, k);
      BelowChild(id, 1, k);
    }
    forall k | id + [1] <= k ensures BelowFrom(id, 0, k) {
      BelowChild(id, 1, k);
    }
  }

  lemma BoundSettles(st: State, r: State, id: NodeId)
    requires r.overloads == st.overloads - {id}
    ensures Settled(r, id) <==> SettledFrom(st, id, 0)
  {
    forall k | k in st.overloads ensures id <= k && k != id <==> BelowFrom(id, 0, k) {
    }
    forall k | k in r.overloads && id <= k ensures k in st.overloads && BelowFrom(id, 0, k) {
      assert k != id;
    }
    forall k | k in st.overloads && BelowFrom(id, 0, k) ensures id <= k && k in r.overloads {
    }
  }

  // ---------- what is recorded ----------

  /** The parts of an expression, when nothing in it is left ambiguous. */
  lemma {:induction false} InnerAnnotated(g: Context, n: ASTNode, id: NodeId, func: Option<NodeId>, st: State)
    requires Simple(n) && KeptInner(g, n, id, st) && EvaluatesFrom(g, n, 0, id) && Inner(g, n, id)
    ensures AnnotatedFrom(g, n, 0, id, func, st)
    decreases n
  {
    hide Evaluates, Own, Simple, Means, Returns;
    SimpleIsNoStmt(n);
    forall j | 0 <= j < |n.Children()|
      ensures Annotated(g, n.Children()[j], id + [j], func, st)
      ensures Resolves(n, j) ==> ResolvedTo(g, n.Children()[j], id + [j], NUMBER, st)
    {
      var child := n.Children()[j];
      SimpleChild(n, j);
      PartsEvaluate(g, child, id + [j]);
      InnerAnnotated(g, child, id + [j], func, st);
      SimpleIsNoStmt(child);
      if !(Resolves(n, j) && child.CallExpr?) {
        OwnAnnotated(g, child, id + [j], st);
      }
    }
  }

  lemma OwnAnnotated(g: Context, n: ASTNode, id: NodeId, st: State)
    requires Own(g, n, id, st) && Evaluates(g, n, id) && Unambiguous(g, n, id)
    ensures (!n.CallExpr? ==> HasItsType(g, n, id, st)) && Resolved(g, n, id, st)
  {
    hide TypeOf, Means, Inner;
    if n.CallExpr? {
      OneCandidate(g, n, id, st);
    }
  }

  lemma KeptIsAnnotated(g: Context, n: ASTNode, id: NodeId, func: Option<NodeId>, st: State)
    requires Simple(n) && Kept(g, n, id, st) && HasSomeType(g, n, id)
    ensures Annotated(g, n, id, func, st)
  {
    hide Own, KeptInner, Evaluates, AnnotatedFrom, Means;
    PartsEvaluate(g, n, id);
    InnerAnnotated(g, n, id, func, st);
    OwnAnnotated(g, n, id, st);
    SimpleIsNoStmt(n);
  }

  // ---------- expressions in their places ----------

  /** An expression where any type will do. */
  lemma AnyVisited(g: Context, syms: Symbols, n: ASTNode, id: NodeId, func: Option<NodeId>, st: State)
    requires Simple(n) && Fine(st) && Matches(g, syms) && Ahead(g, st, id)
    ensures var r := Visit(syms, n, id, st);
            && r.func == st.func
            && (HasSomeType(g, n, id) <==> Fine(r) && Settled(r, id))
            && (HasSomeType(g, n, id) ==> Annotated(g, n, id, func, r))
  {
    SimpleVisited(g, syms, n, id, st);
    SimpleIsStable(syms, n, id, st);
    hide Visit, Kept, Annotated, Evaluates, Unambiguous, Inner, Settled, SettledFrom, Simple, Ahead, Symbols.Valid;
    hide Collected;
    if Evaluates(g, n, id) {
      SimpleSettles(g, syms, n, id, st);
      if HasSomeType(g, n, id) {
        KeptIsAnnotated(g, n, id, func, Visit(syms, n, id, st));
      }
    }
  }

  lemma SimpleIsStable(syms: Symbols, n: ASTNode, id: NodeId, st: State)
    requires Simple(n)
    ensures Visit(syms, n, id, st).func == st.func
    decreases n, |n.Children()| + 1
  {
    hide Plain;
    SimpleIsNoStmt(n);
    SimplesAreStable(syms, n, 0, id, st);
  }

  lemma {:induction false} SimplesAreStable(syms: Symbols, n: ASTNode, i: nat, id: NodeId, st: State)
    requires Simple(n) && i <= |n.Children()|
    ensures VisitFrom(syms, n, i, id, st).func == st.func
    decreases n, |n.Children()| - i
  {
    hide Visit, Simple;
    if i < |n.Children()| {
      SimpleChild(n, i);
      SimpleIsStable(syms, n.Children()[i], id + [i], st);
      SimplesAreStable(syms, n, i + 1, id, Visit(syms, n.Children()[i], id + [i], st));
    }
  }

  /** An expression that was visited before, where type `ty` is asked for. */
  lemma AskedChecked(g: Context, syms: Symbols, n: ASTNode, id: NodeId, ty: Type, func: Option<NodeId>, st: State)
    requires Simple(n) && Fine(st) && Matches(g, syms) && Kept(g, n, id, st) && Evaluates(g, n, id) && Tells(g, n, id, st)
    ensures var (good, r) := Check(syms, n, id, ty, st);
            && (good ==> Fine(r) && (HasType(g, n, id, ty) <==> Settled(r, id)))
            && (HasType(g, n, id, ty) ==> good && Annotated(g, n, id, func, r) && ResolvedTo(g, n, id, ty, r))
            && (!good ==> r == if n.CallExpr? then st.Error() else st)
            && (!n.CallExpr? ==> r == st)
  {
    hide Own, HasInnerCalls, Check, Kept, Evaluates, MayHave, Annotated, Means, Inner, Settled, SettledFrom, Simple;
    hide ResolvedTo;
    hide Symbols.Valid, Collected;
    KeptIsOwn(g, n, id, st);
    SimpleChecked(g, syms, n, id, ty, st);
    var (good, r) := Check(syms, n, id, ty, st);
    if good {
      if n.CallExpr? {
        var d :| Means(g, n, id, d) && Gives(g.decls, d, ty) && BoundTo(id, d, st, r);
        BoundAsAsked(g, n, id, ty, d, func, st, r);
      } else {
        PlainInner(g, n, id);
        NothingToResolve(g, n, id, ty, r);
        if Inner(g, n, id) {
          KeptIsAnnotated(g, n, id, func, r);
        }
      }
    }
  }

  lemma BoundAsAsked(g: Context, n: ASTNode, id: NodeId, ty: Type, d: NodeId, func: Option<NodeId>, st: State, r: State)
    requires n.CallExpr? && Simple(n) && Kept(g, n, id, st) && Evaluates(g, n, id) && Tells(g, n, id, st)
    requires Means(g, n, id, d) && Gives(g.decls, d, ty) && BoundTo(id, d, st, r)
    ensures Settled(r, id) <==> Inner(g, n, id)
    ensures Inner(g, n, id) ==> Annotated(g, n, id, func, r) && ResolvedTo(g, n, id, ty, r)
  {
    hide Kept, Evaluates, Annotated, Means, Inner, Settled, SettledFrom, Simple, ResolvedTo;
    BoundSettles(st, r, id);
    if Inner(g, n, id) {
      BoundIsKept(g, n, id, ty, d, st, r, r);
      ChosenIsAnnotated(g, n, id, ty, func, r);
    }
  }

  lemma KeptIsOwn(g: Context, n: ASTNode, id: NodeId, st: State)
    requires Kept(g, n, id, st)
    ensures Own(g, n, id, st)
  {
    hide Own, KeptInner;
  }

  lemma NothingToResolve(g: Context, n: ASTNode, id: NodeId, ty: Type, st: State)
    requires !n.CallExpr?
    ensures ResolvedTo(g, n, id, ty, st)
  {
  }

  /** A call that has been bound to one of its candidates. */
  lemma ChosenIsAnnotated(g: Context, n: ASTNode, id: NodeId, ty: Type, func: Option<NodeId>, st: State)
    requires n.CallExpr? && Simple(n) && Chosen(g, n, id, ty, st) && KeptInner(g, n, id, st)
    requires Evaluates(g, n, id) && Inner(g, n, id)
    ensures Annotated(g, n, id, func, st) && ResolvedTo(g, n, id, ty, st)
  {
    hide KeptInner, Evaluates, AnnotatedFrom, Means, Simple, Inner;
    PartsEvaluate(g, n, id);
    InnerAnnotated(g, n, id, func, st);
  }

  /** An expression that is visited where type `ty` is asked for. */
  lemma AskedVisited(g: Context, syms: Symbols, n: ASTNode, id: NodeId, ty: Type, func: Option<NodeId>, st: State)
    requires Simple(n) && Fine(st) && Matches(g, syms) && Ahead(g, st, id)
    ensures var mid := Visit(syms, n, id, st);
            var (good, r) := Check(syms, n, id, ty, mid);
            && mid.func == st.func
            && (!Evaluates(g, n, id) ==> Worse(st, mid) && !HasType(g, n, id, ty))
            && (Evaluates(g, n, id) ==>
                 && Fine(mid)
                 && (good ==> Fine(r) && (HasType(g, n, id, ty) <==> Settled(r, id)))
                 && (HasType(g, n, id, ty) ==> good && Annotated(g, n, id, func, r) && ResolvedTo(g, n, id, ty, r))
                 && (!good ==> r == if n.CallExpr? then mid.Error() else mid)
                 && (!n.CallExpr? ==> r == mid)
                 && (HasSomeType(g, n, id) <==> Settled(mid, id))
                 && (HasSomeType(g, n, id) ==> Annotated(g, n, id, func, mid)))
  {
    SimpleVisited(g, syms, n, id, st);
    SimpleIsStable(syms, n, id, st);
    hide Visit, Check, MayHave, Annotated, Evaluates, Unambiguous, Inner, Settled, SettledFrom, Simple, Kept, Ahead;
    hide Symbols.Valid, Collected;
    var mid := Visit(syms, n, id, st);
    if Evaluates(g, n, id) {
      SimpleSettles(g, syms, n, id, st);
      AskedChecked(g, syms, n, id, ty, func, mid);
      if HasSomeType(g, n, id) {
        KeptIsAnnotated(g, n, id, func, mid);
      }
    } else if MayHave(g, n, id, ty) {
      MayHaveEvaluates(g, n, id, ty);
    }
  }

  // ---------- statements ----------

  /** The verdict on a node: it is well typed exactly when nothing is wrong and no call in it
      is ambiguous. */
  ghost predicate Judged(g: Context, n: ASTNode, id: NodeId, st: State, r: State) {
    && (Fine(r) ==> r.func == st.func)
    && (WellTyped(g, n, id, st.func) <==> Fine(r) && Settled(r, id))
    && (WellTyped(g, n, id, st.func) ==> Annotated(g, n, id, st.func, r))
  }

  lemma OnlyBelowChild(st: State, r: State, id: NodeId, i: nat)
    requires NoneWaits(st, id) && Outside(r, st, id + [i])
    ensures Settled(r, id) <==> Settled(r, id + [i])
    ensures NoneWaits(r, id) <==> NoneWaits(r, id + [i])
  {
    forall k | k in r.overloads ensures id + [i] <= k ==> id <= k {
      BelowChild(id, i, k);
    }
    forall k | id <= k && !(id + [i] <= k) ensures k !in r.overloads {
      assert AgreeAt(r, st, k);
    }
  }

  /** A node with one child that has nothing to ask. */
  lemma WrapperVisited(g: Context, syms: Symbols, n: ASTNode, e: ASTNode, id: NodeId, st: State)
    requires n.PrintStmt? || n.ScanStmt? || n.SleepStmt? || n.SpawnExpr?
    requires n.Children() == [e] && Simple(e) && (n.SpawnExpr? ==> e.CallExpr?)
    requires Fine(st) && Matches(g, syms) && Ahead(g, st, id)
    ensures Judged(g, n, id, st, Visit(syms, n, id, st))
  {
    hide Visit, Simple, HasSomeType, Annotated, Settled, NoneWaits, Ahead, Symbols.Valid, Collected;
    AheadChild(g, st, id, 0);
    AheadWaits(g, st, id);
    AnyVisited(g, syms, e, id + [0], st.func, st);
    var r := Visit(syms, e, id + [0], st);
    VisitFrames(syms, e, id + [0], st);
    OnlyBelowChild(st, r, id, 0);
    WrapperIsEntered(syms, n, e, id, st);
    if HasSomeType(g, e, id + [0]) {
      WrapperAnnotated(g, n, e, id, st.func, r);
    }
  }

  lemma WrapperIsEntered(syms: Symbols, n: ASTNode, e: ASTNode, id: NodeId, st: State)
    requires n.PrintStmt? || n.ScanStmt? || n.SleepStmt? || n.SpawnExpr?
    requires n.Children() == [e] && (n.SpawnExpr? ==> e.CallExpr?)
    ensures Visit(syms, n, id, st) == Visit(syms, e, id + [0], st)
  {
    OneChildVisited(syms, n, e, id, st);
    hide Visit;
  }

  lemma OneChildVisited(syms: Symbols, n: ASTNode, e: ASTNode, id: NodeId, st: State)
    requires n.Children() == [e] && !n.FunctionDecl? && !n.BinaryExpr? && !n.Null?
    ensures Visit(syms, n, id, st) == Handle(syms, n, id, Visit(syms, e, id + [0], st))
  {
    hide Handle;
    assert VisitFrom(syms, n, 1, id, Visit(syms, e, id + [0], st)) == Visit(syms, e, id + [0], st);
    assert n.Children()[0] == e;
  }

  lemma WrapperAnnotated(g: Context, n: ASTNode, e: ASTNode, id: NodeId, func: Option<NodeId>, r: State)
    requires n.PrintStmt? || n.ScanStmt? || n.SleepStmt? || n.SpawnExpr?
    requires n.Children() == [e] && Annotated(g, e, id + [0], func, r)
    ensures Annotated(g, n, id, func, r)
  {
    assert n.Children()[0] == e;
  }
}
