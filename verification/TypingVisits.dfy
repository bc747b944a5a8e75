/** What a visit leaves of an expression: the type and candidates that the rules as coded give to it
    and its parts, or something wrong. */
module TypingVisits {
  import opened Ast
  import opened LexicalScoping
  import opened SymbolTable
  import opened TypeChecking
  import opened TypingRules
  import opened TableDeclarations
  import opened TypingFrames
  import opened TypingExpressions
  import opened TypingCalls

  // ---------- handlers ----------

  /** The parts were visited, and the node was not. */
  ghost predicate PartsVisited(g: Context, n: ASTNode, id: NodeId, st: State) {
    KeptFrom(g, n, 0, id, st) && EvaluatesFrom(g, n, 0, id) && NewAt(g, st, id)
  }

  /** What a handler leaves: a type or candidates, or something wrong. */
  ghost predicate WellHandled(g: Context, n: ASTNode, id: NodeId, st: State, r: State) {
    if Evaluates(g, n, id) then Added(st, r) && Kept(g, n, id, r) else Worse(st, r)
  }

  lemma PartKept(g: Context, n: ASTNode, i: nat, id: NodeId, st: State)
    requires PartsVisited(g, n, id, st) && i < |n.Children()|
    ensures Kept(g, n.Children()[i], id + [i], st) && Own(g, n.Children()[i], id + [i], st)
    ensures Evaluates(g, n.Children()[i], id + [i])
  {
    hide Own, KeptInner, Evaluates;
  }

  /** A type recorded at a node does not touch its parts. */
  lemma TypedKept(g: Context, n: ASTNode, id: NodeId, ty: Type, st: State)
    requires !n.CallExpr? && !n.IndexedExpr? && TypeOf(g, n, id) == Some(ty) && PartsVisited(g, n, id, st)
    ensures Kept(g, n, id, st.Typed(id, ty))
  {
    hide TypeOf, Evaluates, Kept, Means;
    forall i | 0 <= i < |n.Children()| ensures Kept(g, n.Children()[i], id + [i], st.Typed(id, ty)) {
      assert Kept(g, n.Children()[i], id + [i], st);
      forall k | id + [i] <= k ensures AgreeAt(st, st.Typed(id, ty), k) {
        BelowChild(id, i, k);
      }
      KeptStays(g, n.Children()[i], id + [i], st, st.Typed(id, ty));
    }
    KeptByParts(g, n, id, st.Typed(id, ty));
  }

  lemma KeptByParts(g: Context, n: ASTNode, id: NodeId, st: State)
    requires !n.IndexedExpr? && Own(g, n, id, st) && KeptFrom(g, n, 0, id, st)
    ensures Kept(g, n, id, st)
  {
    hide Own;
  }

  lemma TypedHandled(g: Context, n: ASTNode, id: NodeId, st: State, r: State)
    requires !n.CallExpr? && !n.IndexedExpr? && PartsVisited(g, n, id, st)
    requires match TypeOf(g, n, id) case Some(ty) => r == st.Typed(id, ty) case None => Worse(st, r)
    ensures WellHandled(g, n, id, st, r)
  {
    hide TypeOf, PartsVisited, Kept;
    if TypeOf(g, n, id).Some? {
      TypedKept(g, n, id, TypeOf(g, n, id).value, st);
    }
  }

  /** What the elements from the `i`-th on read as. */
  lemma {:induction false} ElementsHandled(g: Context, n: ASTNode, i: nat, id: NodeId, ty: Type, st: State)
    requires n.ArrayExpr? && i <= |n.elems| && !st.failed
    ensures var r := HandleElements(n, i, id, ty, st);
            if (forall j | i <= j < |n.elems| :: st.TypeAt(id + [j]) == ty) && ArrayVersion(ty).Some?
            then r == st.Typed(id, ArrayVersion(ty).value) else Worse(st, r)
    decreases |n.elems| - i
  {
    if i < |n.elems| {
      var mid := st.Read(id + [i]);
      assert forall j | 0 <= j < |n.elems| :: mid.TypeAt(id + [j]) == st.TypeAt(id + [j]);
      if mid.TypeAt(id + [i]) == ty {
        ElementsHandled(g, n, i + 1, id, ty, mid);
        if ArrayVersion(ty).Some? {
          assert mid == st;
        }
      }
    }
  }

  /** An element that is a call, or has no type, reads as the default, which has no arrays. */
  lemma ElementRead(g: Context, n: ASTNode, id: NodeId, ty: Type, st: State)
    requires Own(g, n, id, st) && Evaluates(g, n, id) && !g.quirks.callTypes
    ensures ArrayVersion(ty).Some? ==> (st.TypeAt(id) == ty <==> ValueType(g, n, id) == Some(ty))
  {
    hide TypeOf, Means;
  }

  /** An array is typed exactly when it is not empty and its elements, none of them a call, share a
      type that has arrays. */
  lemma ArrayHandled(g: Context, n: ASTNode, id: NodeId, st: State)
    requires n.ArrayExpr? && !st.failed && PartsVisited(g, n, id, st) && !g.quirks.callTypes
    ensures var r := HandleArray(n, id, st);
            match TypeOf(g, n, id) case Some(ty) => r == st.Typed(id, ty) case None => Worse(st, r)
  {
    hide HandleElements, TypeOf, ValueType, PartsVisited;
    if n.elems != [] {
      var ty, mid := st.TypeAt(id + [0]), st.Read(id + [0]);
      ElementsRead(g, n, id, ty, st);
      ElementsHandled(g, n, 0, id, ty, mid);
      ArrayTypeOf(g, n, id);
      assert forall j | 0 <= j < |n.elems| :: mid.TypeAt(id + [j]) == st.TypeAt(id + [j]);
      if ArrayVersion(ty).Some? {
        assert ValueType(g, n.elems[0], id + [0]) == Some(ty) && mid == st;
      } else {
        NoArrayOfFirst(g, n, id, st);
      }
    } else {
      EmptyArrayHasNoType(g, n, id);
    }
  }

  lemma EmptyArrayHasNoType(g: Context, n: ASTNode, id: NodeId)
    requires n.ArrayExpr? && n.elems == []
    ensures TypeOf(g, n, id).None?
  {
  }

  lemma ElementsRead(g: Context, n: ASTNode, id: NodeId, ty: Type, st: State)
    requires n.ArrayExpr? && PartsVisited(g, n, id, st) && !g.quirks.callTypes
    ensures ArrayVersion(ty).Some? ==>
              forall j | 0 <= j < |n.elems| :: st.TypeAt(id + [j]) == ty <==> ValueType(g, n.elems[j], id + [j]) == Some(ty)
  {
    hide ValueType, PartsVisited, Own, Evaluates;
    forall j | 0 <= j < |n.elems|
      ensures ArrayVersion(ty).Some? ==> (st.TypeAt(id + [j]) == ty <==> ValueType(g, n.elems[j], id + [j]) == Some(ty))
    {
      PartKept(g, n, j, id, st);
      ElementRead(g, n.elems[j], id + [j], ty, st);
    }
  }

  lemma NoArrayOfFirst(g: Context, n: ASTNode, id: NodeId, st: State)
    requires n.ArrayExpr? && n.elems != [] && PartsVisited(g, n, id, st) && !g.quirks.callTypes
    requires ArrayVersion(st.TypeAt(id + [0])).None?
    ensures TypeOf(g, n, id).None?
  {
    PartKept(g, n, 0, id, st);
    ArrayTypeOf(g, n, id);
    hide TypeOf, PartsVisited, Means;
  }

  lemma OperandFound(g: Context, syms: Symbols, n: ASTNode, id: NodeId, st: State)
    requires Simple(n) && Own(g, n, id, st) && Evaluates(g, n, id) && Codes(g, syms)
    ensures OperandType(syms, n, id, st) == OperandTypeOf(g, n, id) && OperandTypeOf(g, n, id).Some?
  {
    SimpleIsNoStmt(n);
    ReadsDeclarations(syms.table);
    if n.IdentifierExpr? {
      assert TypeOf(g, n, id) == TypeOfUse(g.decls, g.uses, id);
    } else if n.BooleanExpr? {
      assert TypeOf(g, n, id) == Some(BOOL);
    } else if n.NumberExpr? {
      assert TypeOf(g, n, id) == Some(NUMBER);
    }
    hide TypeOf, Means, Simple;
  }

  /** An operation is typed exactly when its operands count as of the same type and only identifiers
      are assigned to. */
  lemma BinaryHandled(g: Context, syms: Symbols, n: ASTNode, id: NodeId, st: State)
    requires n.BinaryExpr? && Simple(n) && !st.failed && Codes(g, syms) && PartsVisited(g, n, id, st)
    ensures var r := HandleBinary(syms, n, id, st);
            match TypeOf(g, n, id) case Some(ty) => r == st.Typed(id, ty) case None => Worse(st, r)
  {
    assert n.Children()[0] == n.lhs && n.Children()[1] == n.rhs;
    PartKept(g, n, 0, id, st);
    PartKept(g, n, 1, id, st);
    SimpleChild(n, 0);
    SimpleChild(n, 1);
    OperandFound(g, syms, n.lhs, id + [0], st);
    OperandFound(g, syms, n.rhs, id + [1], st);
    BinaryTypeOf(g, n, id);
    forall ty ensures ResultType(n.op, ty) == OperationType(n.op, ty) {
      ResultIsOperationType(n.op, ty);
    }
    hide ResultType, OperationType;
    hide OperandType, TypeOf, OperandTypeOf, PartsVisited, Own, Kept, Evaluates, Simple;
  }

  /** An index expression is typed exactly when its index may be a number and what is indexed has a
      type; an index that is a call is then bound. */
  lemma IndexedHandled(g: Context, syms: Symbols, n: ASTNode, id: NodeId, st: State)
    requires n.IndexedExpr? && Simple(n) && !st.failed && Matches(g, syms) && PartsVisited(g, n, id, st)
    ensures WellHandled(g, n, id, st, HandleIndexed(syms, n, id, st))
  {
    assert n.Children()[0] == n.ident && n.Children()[1] == n.index;
    PartKept(g, n, 0, id, st);
    PartKept(g, n, 1, id, st);
    SimpleChild(n, 1);
    SimpleChecked(g, syms, n.index, id + [1], NUMBER, st);
    CheckFrames(syms, n.index, id + [1], NUMBER, st);
    IndexedTypeOf(g, n, id);
    CallIsUntyped(g, n.ident, id + [0], st);
    hide Check, TypeOf, MayHave, PartsVisited, Kept, Evaluates, Simple, Symbols.Valid, Collected, Means;
    var (good, after) := Check(syms, n.index, id + [1], NUMBER, st);
    BelowChild(id, 1, id + [0]);
    assert AgreeAt(after, st, id + [0]);
    var r := HandleIndexed(syms, n, id, st);
    TypeEvaluates(g, n, id);
    if good && TypeOf(g, n.ident, id + [0]).Some? {
      assert r == after.Typed(id, after.types[id + [0]]);
      assert HasItsType(g, n, id, r);
      IndexIsKept(g, syms, n, id, st);
    }
  }

  lemma TypeEvaluates(g: Context, n: ASTNode, id: NodeId)
    requires !n.CallExpr?
    ensures Evaluates(g, n, id) <==> TypeOf(g, n, id).Some?
  {
    hide TypeOf;
  }

  /** What is recorded of an expression tells whether it has a type. */
  lemma CallIsUntyped(g: Context, n: ASTNode, id: NodeId, st: State)
    requires Own(g, n, id, st)
    ensures if id in st.types then TypeOf(g, n, id) == Some(st.types[id]) else TypeOf(g, n, id).None?
  {
    if n.CallExpr? {
      CallHasNoType(g, n, id);
    }
    hide TypeOf, Means;
  }

  lemma IndexIsKept(g: Context, syms: Symbols, n: ASTNode, id: NodeId, st: State)
    requires n.IndexedExpr? && Simple(n) && !st.failed && Matches(g, syms) && PartsVisited(g, n, id, st)
    requires Check(syms, n.index, id + [1], NUMBER, st).0
    ensures var after := Check(syms, n.index, id + [1], NUMBER, st).1;
            && Added(st, after)
            && forall ty :: HasItsType(g, n, id, after.Typed(id, ty)) ==> Kept(g, n, id, after.Typed(id, ty))
  {
    assert n.Children()[0] == n.ident && n.Children()[1] == n.index;
    PartKept(g, n, 0, id, st);
    PartKept(g, n, 1, id, st);
    SimpleChild(n, 1);
    SimpleChecked(g, syms, n.index, id + [1], NUMBER, st);
    CheckFrames(syms, n.index, id + [1], NUMBER, st);
    var after := Check(syms, n.index, id + [1], NUMBER, st).1;
    hide Check, TypeOf, MayHave, Evaluates, Simple, Symbols.Valid, Collected, Means, Kept;
    assert id !in st.overloads;
    BelowChild(id, 1, id);
    assert AgreeAt(after, st, id);
    forall ty | HasItsType(g, n, id, after.Typed(id, ty)) ensures Kept(g, n, id, after.Typed(id, ty)) {
      var r := after.Typed(id, ty);
      IdentIsKept(g, n, id, ty, st, after);
      if n.index.CallExpr? {
        var d :| Means(g, n.index, id + [1], d) && Gives(g.decls, d, NUMBER) && BoundTo(id + [1], d, st, after);
        BoundIsKept(g, n.index, id + [1], NUMBER, d, st, after, r);
      } else {
        forall k | id + [1] <= k ensures AgreeAt(st, r, k) {
          BelowChild(id, 1, k);
        }
        KeptStays(g, n.index, id + [1], st, r);
      }
      IndexedKept(g, n, id, r);
    }
  }

  lemma IdentIsKept(g: Context, n: ASTNode, id: NodeId, ty: Type, st: State, after: State)
    requires n.IndexedExpr? && Kept(g, n.ident, id + [0], st) && Outside(after, st, id + [1])
    ensures Kept(g, n.ident, id + [0], after.Typed(id, ty))
  {
    hide Kept;
    var r := after.Typed(id, ty);
    forall k | id + [0] <= k ensures AgreeAt(st, r, k) {
      ChildrenAreApart(id, 0, 1, k);
      assert AgreeAt(after, st, k);
    }
    KeptStays(g, n.ident, id + [0], st, r);
  }

  lemma IndexedKept(g: Context, n: ASTNode, id: NodeId, st: State)
    requires n.IndexedExpr? && Own(g, n, id, st) && Kept(g, n.ident, id + [0], st)
    requires if n.index.CallExpr? then Chosen(g, n.index, id + [1], NUMBER, st) && KeptInner(g, n.index, id + [1], st)
             else Kept(g, n.index, id + [1], st)
    ensures Kept(g, n, id, st)
  {
    assert n.Children() == [n.ident, n.index];
    hide Own, Chosen;
  }

  /** Binding a call leaves its parts alone. */
  lemma BoundIsKept(g: Context, n: ASTNode, id: NodeId, ty: Type, d: NodeId, st: State, after: State, r: State)
    requires n.CallExpr? && Kept(g, n, id, st) && Means(g, n, id, d) && Gives(g.decls, d, ty) && BoundTo(id, d, st, after)
    requires r == after || exists k: NodeId, t :: !(id <= k) && r == after.Typed(k, t)
    ensures Chosen(g, n, id, ty, r) && KeptInner(g, n, id, r)
  {
    hide Own, Means, Returns;
    assert KeptInner(g, n, id, st);
    hide KeptInner;
    forall k | BelowFrom(id, 0, k) ensures AgreeAt(st, r, k) {
    }
    KeptInnerStays(g, n, id, st, r);
  }

  lemma CallWellHandled(g: Context, syms: Symbols, n: ASTNode, id: NodeId, st: State)
    requires n.CallExpr? && Simple(n) && !st.failed && Matches(g, syms) && PartsVisited(g, n, id, st)
    ensures WellHandled(g, n, id, st, HandleCall(syms, n, id, st))
  {
    forall j | 0 <= j < |n.args| ensures Own(g, n.args[j], id + [j], st) {
      PartKept(g, n, j, id, st);
    }
    CallHandled(g, syms, n, id, st);
    hide HandleCall, Own, Simple, Symbols.Valid, Collected, Means, Evaluates, Kept;
    var r := HandleCall(syms, n, id, st);
    if Evaluates(g, n, id) {
      var d := Meaning(g, n, id);
      assert d in r.overloads[id];
      CallKept(g, n, id, st, r);
    } else {
      EmptyOrNot(r.overloads[id]);
      if d :| d in r.overloads[id] {
        MeansEvaluates(g, n, id, d);
      }
    }
  }

  lemma MeansEvaluates(g: Context, n: ASTNode, id: NodeId, d: NodeId)
    requires n.CallExpr? && Means(g, n, id, d)
    ensures Evaluates(g, n, id)
  {
    hide Means;
  }

  lemma CallKept(g: Context, n: ASTNode, id: NodeId, st: State, r: State)
    requires n.CallExpr? && PartsVisited(g, n, id, st) && HasCandidates(g, n, id, r)
    requires r == st.(overloads := st.overloads[id := r.overloads[id]])
    ensures Kept(g, n, id, r)
  {
    hide Own, HasCandidates, Evaluates, Kept;
    forall i | 0 <= i < |n.Children()| ensures Kept(g, n.Children()[i], id + [i], r) {
      PartKept(g, n, i, id, st);
      forall k | id + [i] <= k ensures AgreeAt(st, r, k) {
        BelowChild(id, i, k);
      }
      KeptStays(g, n.Children()[i], id + [i], st, r);
    }
    CallOwn(g, n, id, r);
    KeptByParts(g, n, id, r);
  }

  lemma CallOwn(g: Context, n: ASTNode, id: NodeId, st: State)
    requires n.CallExpr? && HasCandidates(g, n, id, st) && id !in st.types
    ensures Own(g, n, id, st)
  {
    hide HasCandidates;
  }

  /** The handler gives an expression what the rules give it. */
  lemma SimpleHandled(g: Context, syms: Symbols, n: ASTNode, id: NodeId, st: State)
    requires Simple(n) && !st.failed && Matches(g, syms) && PartsVisited(g, n, id, st)
    ensures WellHandled(g, n, id, st, Handle(syms, n, id, st))
  {
    hide PartsVisited, WellHandled, HandleCall, HandleIndexed, HandleBinary, HandleArray, Symbols.Valid, Collected;
    if n.CallExpr? {
      CallWellHandled(g, syms, n, id, st);
    } else if n.IndexedExpr? {
      IndexedHandled(g, syms, n, id, st);
    } else {
      if n.ArrayExpr? {
        ArrayHandled(g, n, id, st);
      } else if n.BinaryExpr? {
        BinaryHandled(g, syms, n, id, st);
      } else {
        LeafHandled(g, syms, n, id, st);
      }
      TypedHandled(g, n, id, st, Handle(syms, n, id, st));
    }
  }

  lemma LeafHandled(g: Context, syms: Symbols, n: ASTNode, id: NodeId, st: State)
    requires Simple(n) && n.Children() == [] && !n.CallExpr? && !n.ArrayExpr?
    requires !st.failed && Codes(g, syms) && PartsVisited(g, n, id, st)
    ensures var r := Handle(syms, n, id, st);
            match TypeOf(g, n, id) case Some(ty) => r == st.Typed(id, ty) case None => Worse(st, r)
  {
  }

  // ---------- visits ----------

  /** No hook does anything about an expression. */
  lemma SimpleIsEntered(syms: Symbols, n: ASTNode, id: NodeId, st: State)
    requires Simple(n)
    ensures Visit(syms, n, id, st) == Handle(syms, n, id, VisitFrom(syms, n, 0, id, st))
  {
    hide Handle, VisitFrom;
  }

  /** A part without a type or meaning leaves the whole without. */
  lemma ChildMatters(g: Context, n: ASTNode, id: NodeId)
    requires Simple(n) && !EvaluatesFrom(g, n, 0, id)
    ensures !Evaluates(g, n, id)
  {
    hide Simple, EvaluatesFrom, Evaluates;
    if Evaluates(g, n, id) {
      PartsEvaluate(g, n, id);
    }
  }

  /** A visit gives an expression and all its parts what the rules give them, or finds something
      wrong. */
  lemma {:induction false} SimpleVisited(g: Context, syms: Symbols, n: ASTNode, id: NodeId, st: State)
    requires Simple(n) && !st.failed && Matches(g, syms) && Ahead(g, st, id)
    ensures WellHandled(g, n, id, st, Visit(syms, n, id, st))
    decreases n, |n.Children()| + 1
  {
    AheadOfAll(g, st, id);
    ChildrenVisited(g, syms, n, 0, id, st);
    VisitFromFrames(syms, n, 0, id, st);
    SimpleIsEntered(syms, n, id, st);
    hide Visit, VisitFrom, Handle, Simple, Kept, KeptFrom, Evaluates, EvaluatesFrom, Ahead, AheadFrom, OutsideFrom;
    hide Symbols.Valid, Collected;
    var mid := VisitFrom(syms, n, 0, id, st);
    if EvaluatesFrom(g, n, 0, id) {
      StillNew(g, st, mid, id);
      SimpleHandled(g, syms, n, id, mid);
    } else {
      ChildMatters(g, n, id);
    }
  }

  lemma {:induction false} ChildrenVisited(g: Context, syms: Symbols, n: ASTNode, i: nat, id: NodeId, st: State)
    requires Simple(n) && i <= |n.Children()| && !st.failed && Matches(g, syms) && AheadFrom(g, st, id, i)
    ensures var r := VisitFrom(syms, n, i, id, st);
            if EvaluatesFrom(g, n, i, id) then Added(st, r) && KeptFrom(g, n, i, id, r) else Worse(st, r)
    decreases n, |n.Children()| - i
  {
    hide Visit, Simple, Evaluates, Kept, OutsideFrom, AheadFrom, Symbols.Valid, Collected;
    if i < |n.Children()| {
      var child := n.Children()[i];
      var mid := Visit(syms, child, id + [i], st);
      SimpleChild(n, i);
      AheadOfChild(g, st, id, i);
      SimpleVisited(g, syms, child, id + [i], st);
      VisitFrames(syms, child, id + [i], st);
      if Evaluates(g, child, id + [i]) {
        AheadBehindChild(g, st, mid, id, i);
        ChildrenVisited(g, syms, n, i + 1, id, mid);
        VisitFromFrames(syms, n, i + 1, id, mid);
        KeptOutside(g, child, id, i, mid, VisitFrom(syms, n, i + 1, id, mid));
      }
    }
  }
}
