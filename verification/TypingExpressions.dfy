/** What a visit has recorded of an expression, and what the rules as coded say it should have. */
module TypingExpressions {
  import opened Ast
  import opened LexicalScoping
  import opened SymbolTable
  import opened TypeChecking
  import opened TypingRules
  import opened TableDeclarations
  import opened TypingFrames

  /** The rules as coded, for the checker's own table and unset variables. */
  ghost predicate Codes(g: Context, syms: Symbols) {
    g.decls == DeclarationsIn(syms.table) && g.quirks == Coded(syms.noise)
  }

  ghost predicate Matches(g: Context, syms: Symbols) {
    Codes(g, syms) && syms.Valid() && Collected(syms.table)
  }

  /** What the checker reads off the table is what is declared. */
  lemma ReadsDeclarations(table: Table)
    ensures var decls := DeclarationsIn(table);
            && (forall d :: VariableType(table, d) == DeclaredType(decls, d))
            && (forall uses, use :: UseType(table, uses, use) == TypeOfUse(decls, uses, use))
            && (forall d | d in decls && decls[d].Function? ::
                 ReturnType(table[d]) == decls[d].result && ParameterTypes(table[d]) == decls[d].parameters)
            && (forall d | d in decls && decls[d].Function? :: forall ty :: Returns(table, d, ty) <==> Gives(decls, d, ty))
  {
  }

  /** The type the checker gives to an operation is that of the rules. */
  lemma ResultIsOperationType(op: Operation, operand: Type)
    ensures ResultType(op, operand) == OperationType(op, operand)
  {
  }

  /** Something new was found to be wrong. */
  predicate Worse(st: State, r: State) {
    r.failed || r.errors > st.errors
  }

  /** Only types, candidates and bindings have been added. */
  predicate Added(st: State, r: State) {
    r == st.(types := r.types, overloads := r.overloads, uses := r.uses)
  }

  // ---------- ahead of a visit ----------

  predicate SameUse(g: Context, st: State, k: NodeId) {
    (k in st.uses <==> k in g.uses) && (k in g.uses ==> st.uses[k] == g.uses[k])
  }

  /** Nothing is known of the node at `k` but what the context says it is bound to. */
  predicate NewAt(g: Context, st: State, k: NodeId) {
    k !in st.types && k !in st.overloads && SameUse(g, st, k)
  }

  /** The run has not been at `id` or below. */
  ghost predicate Ahead(g: Context, st: State, id: NodeId) {
    forall k | id <= k :: NewAt(g, st, k)
  }

  ghost predicate AheadFrom(g: Context, st: State, id: NodeId, i: nat) {
    forall k | BelowFrom(id, i, k) :: NewAt(g, st, k)
  }

  lemma AheadOfAll(g: Context, st: State, id: NodeId)
    requires Ahead(g, st, id)
    ensures AheadFrom(g, st, id, 0) && NewAt(g, st, id)
  {
    assert id <= id;
  }

  lemma AheadOfChild(g: Context, st: State, id: NodeId, i: nat)
    requires AheadFrom(g, st, id, i)
    ensures Ahead(g, st, id + [i])
  {
    forall k | id + [i] <= k ensures NewAt(g, st, k) {
      BelowChild(id, i, k);
      assert BelowFrom(id, i, k);
    }
  }

  lemma AheadChild(g: Context, st: State, id: NodeId, i: nat)
    requires Ahead(g, st, id)
    ensures Ahead(g, st, id + [i])
  {
    forall k | id + [i] <= k ensures NewAt(g, st, k) {
      BelowChild(id, i, k);
    }
  }

  lemma AheadBehindChild(g: Context, st: State, mid: State, id: NodeId, i: nat)
    requires AheadFrom(g, st, id, i) && Outside(mid, st, id + [i])
    ensures AheadFrom(g, mid, id, i + 1)
  {
    forall k | BelowFrom(id, i + 1, k) ensures NewAt(g, mid, k) {
      BelowChild(id, i, k);
      assert BelowFrom(id, i, k) && AgreeAt(mid, st, k);
    }
  }

  /** Visiting children leaves the node itself alone. */
  lemma StillNew(g: Context, st: State, mid: State, id: NodeId)
    requires NewAt(g, st, id) && OutsideFrom(mid, st, id, 0)
    ensures NewAt(g, mid, id)
  {
    assert AgreeAt(mid, st, id);
  }

  // ---------- what is kept ----------

  /** The type of an expression is recorded. */
  ghost predicate HasItsType(g: Context, n: ASTNode, id: NodeId, st: State) {
    id in st.types && TypeOf(g, n, id) == Some(st.types[id])
  }

  /** The candidates kept for a call are the functions it may mean. */
  ghost predicate HasCandidates(g: Context, n: ASTNode, id: NodeId, st: State)
    requires n.CallExpr?
  {
    && id in st.overloads && NoRepeats(st.overloads[id])
    && forall d :: d in st.overloads[id] <==> Means(g, n, id, d)
  }

  /** The call is bound to a function that it may mean and that returns `ty`. */
  ghost predicate Chosen(g: Context, n: ASTNode, id: NodeId, ty: Type, st: State)
    requires n.CallExpr?
  {
    id !in st.overloads && id in st.uses && Means(g, n, id, st.uses[id]) && Gives(g.decls, st.uses[id], ty)
  }

  /** What a visit leaves at the node itself. */
  ghost predicate Own(g: Context, n: ASTNode, id: NodeId, st: State) {
    if n.CallExpr? then HasCandidates(g, n, id, st) && id !in st.types
    else HasItsType(g, n, id, st) && id !in st.overloads && (n.IdentifierExpr? ==> SameUse(g, st, id))
  }

  /** So much is kept of an expression: the types of its parts that are no calls, and the candidates
      of every call in it, or what it is bound to if a type was asked of it. */
  ghost predicate Kept(g: Context, n: ASTNode, id: NodeId, st: State)
    decreases n, 1
  {
    Own(g, n, id, st) && KeptInner(g, n, id, st)
  }

  ghost predicate KeptInner(g: Context, n: ASTNode, id: NodeId, st: State)
    decreases n, 0
  {
    forall i | 0 <= i < |n.Children()| ::
      if Resolves(n, i) && n.Children()[i].CallExpr? then
        Chosen(g, n.Children()[i], id + [i], NUMBER, st) && KeptInner(g, n.Children()[i], id + [i], st)
      else Kept(g, n.Children()[i], id + [i], st)
  }

  ghost predicate KeptFrom(g: Context, n: ASTNode, i: nat, id: NodeId, st: State) {
    forall j | i <= j < |n.Children()| :: Kept(g, n.Children()[j], id + [j], st)
  }

  ghost predicate EvaluatesFrom(g: Context, n: ASTNode, i: nat, id: NodeId) {
    forall j | i <= j < |n.Children()| :: Evaluates(g, n.Children()[j], id + [j])
  }

  lemma OwnStays(g: Context, n: ASTNode, id: NodeId, a: State, b: State)
    requires Own(g, n, id, a) && AgreeAt(a, b, id)
    ensures Own(g, n, id, b)
  {
    hide TypeOf, Means;
  }

  lemma {:induction false} KeptInnerStays(g: Context, n: ASTNode, id: NodeId, a: State, b: State)
    requires KeptInner(g, n, id, a) && forall k | BelowFrom(id, 0, k) :: AgreeAt(a, b, k)
    ensures KeptInner(g, n, id, b)
    decreases n
  {
    hide Own, Means, Returns, ASTNode.Children;
    forall i | 0 <= i < |n.Children()|
      ensures if Resolves(n, i) && n.Children()[i].CallExpr? then
                Chosen(g, n.Children()[i], id + [i], NUMBER, b) && KeptInner(g, n.Children()[i], id + [i], b)
              else Kept(g, n.Children()[i], id + [i], b)
    {
      forall k | id + [i] <= k ensures AgreeAt(a, b, k) {
        BelowChild(id, i, k);
        assert BelowFrom(id, 0, k);
      }
      assert id + [i] <= id + [i] && AgreeAt(a, b, id + [i]);
      KeptInnerStays(g, n.Children()[i], id + [i], a, b);
      if !(Resolves(n, i) && n.Children()[i].CallExpr?) {
        OwnStays(g, n.Children()[i], id + [i], a, b);
      }
    }
  }

  lemma KeptStays(g: Context, n: ASTNode, id: NodeId, a: State, b: State)
    requires Kept(g, n, id, a) && forall k | id <= k :: AgreeAt(a, b, k)
    ensures Kept(g, n, id, b)
  {
    hide Own, KeptInner;
    assert id <= id;
    OwnStays(g, n, id, a, b);
    KeptInnerStays(g, n, id, a, b);
  }

  /** Later visits do not touch what is kept of an earlier child. */
  lemma KeptOutside(g: Context, child: ASTNode, id: NodeId, i: nat, a: State, b: State)
    requires Kept(g, child, id + [i], a) && OutsideFrom(b, a, id, i + 1)
    ensures Kept(g, child, id + [i], b)
  {
    hide Kept;
    forall k | id + [i] <= k ensures AgreeAt(a, b, k) {
      BelowChild(id, i, k);
      assert AgreeAt(b, a, k);
    }
    KeptStays(g, child, id + [i], a, b);
  }

  // ---------- the rules, kind by kind ----------

  lemma SimpleChild(n: ASTNode, i: nat)
    requires Simple(n) && i < |n.Children()|
    ensures Simple(n.Children()[i]) && !n.Children()[i].Null?
  {
  }

  lemma SimpleIsNoStmt(n: ASTNode)
    requires Simple(n)
    ensures !n.Null? && !n.FunctionDecl? && !n.ProgramDecl? && !n.IfStmt? && !n.WhileStmt? && !n.VarDecl? && !n.ReturnStmt?
    ensures !n.SpawnExpr? && !n.PrintStmt? && !n.ScanStmt? && !n.SleepStmt? && !n.CompoundStmt? && !n.SyncStmt?
  {
  }

  /** The type of an operation under the rules as coded. */
  lemma BinaryTypeOf(g: Context, n: ASTNode, id: NodeId)
    requires n.BinaryExpr? && Evaluates(g, n.lhs, id + [0]) && Evaluates(g, n.rhs, id + [1])
    ensures var left, right := OperandTypeOf(g, n.lhs, id + [0]), OperandTypeOf(g, n.rhs, id + [1]);
            TypeOf(g, n, id) == if left.Some? && left == right && (n.op == ASSIGNMENT ==> n.lhs.IdentifierExpr?)
                                then Some(OperationType(n.op, left.value)) else None
  {
    hide Evaluates, OperandTypeOf;
  }

  lemma ArrayTypeOf(g: Context, n: ASTNode, id: NodeId)
    requires n.ArrayExpr? && n.elems != []
    ensures var ty := ValueType(g, n.elems[0], id + [0]);
            TypeOf(g, n, id) == if ty.Some? && forall i | 0 <= i < |n.elems| :: ValueType(g, n.elems[i], id + [i]) == ty
                                then ArrayVersion(ty.value) else None
  {
    hide ValueType;
  }

  lemma IndexedTypeOf(g: Context, n: ASTNode, id: NodeId)
    requires n.IndexedExpr?
    ensures TypeOf(g, n, id)
         == if MayHave(g, n.index, id + [1], NUMBER) then IndexedType(g, TypeOf(g, n.ident, id + [0])) else None
  {
    hide MayHave;
  }

  lemma CallHasNoType(g: Context, n: ASTNode, id: NodeId)
    requires n.CallExpr?
    ensures TypeOf(g, n, id).None?
  {
  }

  lemma MayHaveEvaluates(g: Context, n: ASTNode, id: NodeId, ty: Type)
    requires MayHave(g, n, id, ty)
    ensures Evaluates(g, n, id)
  {
    hide TypeOf, Means;
  }

  lemma OperandEvaluates(g: Context, n: ASTNode, id: NodeId)
    requires OperandTypeOf(g, n, id).Some?
    ensures Evaluates(g, n, id)
  {
    hide Evaluates;
  }

  lemma ValueEvaluates(g: Context, n: ASTNode, id: NodeId)
    requires ValueType(g, n, id).Some?
    ensures Evaluates(g, n, id)
  {
    if n.CallExpr? {
      CallTypeEvaluates(g, n, id);
    }
    hide TypeOf, CallType;
  }

  lemma CallTypeEvaluates(g: Context, n: ASTNode, id: NodeId)
    requires n.CallExpr? && CallType(g, n, id).Some?
    ensures Evaluates(g, n, id)
  {
    hide Means, AllReturn;
  }

  /** A function that a call may mean. */
  lemma Meaning(g: Context, n: ASTNode, id: NodeId) returns (d: NodeId)
    requires n.CallExpr? && Evaluates(g, n, id)
    ensures Means(g, n, id, d)
  {
    hide Means;
    d :| Means(g, n, id, d);
  }

  /** An argument that is taken evaluates. */
  lemma TakesEvaluated(g: Context, n: ASTNode, j: nat, id: NodeId, d: NodeId)
    requires n.CallExpr? && j < |n.args| && Means(g, n, id, d)
    ensures Evaluates(g, n.args[j], id + [j])
  {
    hide TypeOf;
    assert Takes(g.quirks.calls, g, n, j, id, d);
    if n.args[j].CallExpr? {
      var e :| MeansBy(g.quirks.calls, g, n.args[j], id + [j], e);
      assert Means(g, n.args[j], id + [j], e);
    }
  }

  /** An expression that evaluates has parts that do. */
  lemma PartsEvaluate(g: Context, n: ASTNode, id: NodeId)
    requires Simple(n) && Evaluates(g, n, id)
    ensures EvaluatesFrom(g, n, 0, id)
  {
    if n.CallExpr? {
      ArgumentsEvaluate(g, n, id);
    } else if n.ArrayExpr? {
      ElementsEvaluate(g, n, id);
    } else if n.BinaryExpr? {
      OperandsEvaluate(g, n, id);
    } else if n.IndexedExpr? {
      IndexEvaluates(g, n, id);
    }
  }

  lemma ArgumentsEvaluate(g: Context, n: ASTNode, id: NodeId)
    requires n.CallExpr? && Evaluates(g, n, id)
    ensures EvaluatesFrom(g, n, 0, id)
  {
    hide Means;
    var d :| Means(g, n, id, d);
    forall j | 0 <= j < |n.args| ensures Evaluates(g, n.args[j], id + [j]) {
      TakesEvaluated(g, n, j, id, d);
    }
  }

  lemma ElementsEvaluate(g: Context, n: ASTNode, id: NodeId)
    requires n.ArrayExpr? && TypeOf(g, n, id).Some?
    ensures EvaluatesFrom(g, n, 0, id)
  {
    if n.elems != [] {
      ArrayTypeOf(g, n, id);
      hide TypeOf, ValueType, Evaluates;
      forall j | 0 <= j < |n.elems| ensures Evaluates(g, n.elems[j], id + [j]) {
        ValueEvaluates(g, n.elems[j], id + [j]);
      }
    }
  }

  lemma OperandsEvaluate(g: Context, n: ASTNode, id: NodeId)
    requires n.BinaryExpr? && TypeOf(g, n, id).Some?
    ensures EvaluatesFrom(g, n, 0, id)
  {
    assert OperandTypeOf(g, n.lhs, id + [0]).Some? && OperandTypeOf(g, n.rhs, id + [1]).Some?;
    hide TypeOf, OperandTypeOf, Evaluates;
    OperandEvaluates(g, n.lhs, id + [0]);
    OperandEvaluates(g, n.rhs, id + [1]);
    assert n.Children() == [n.lhs, n.rhs];
  }

  lemma IndexEvaluates(g: Context, n: ASTNode, id: NodeId)
    requires n.IndexedExpr? && TypeOf(g, n, id).Some?
    ensures EvaluatesFrom(g, n, 0, id)
  {
    IndexedTypeOf(g, n, id);
    TypedEvaluates(g, n.ident, id + [0]);
    hide TypeOf, MayHave, Evaluates;
    MayHaveEvaluates(g, n.index, id + [1], NUMBER);
    assert n.Children() == [n.ident, n.index];
  }

  lemma TypedEvaluates(g: Context, n: ASTNode, id: NodeId)
    requires TypeOf(g, n, id).Some?
    ensures Evaluates(g, n, id) && !n.CallExpr?
  {
    if n.CallExpr? {
      CallHasNoType(g, n, id);
    }
    hide TypeOf;
  }
}
