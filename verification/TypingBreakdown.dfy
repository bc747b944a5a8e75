/** When a run of the type checker breaks down, on an assertion, a lookup that finds nothing or a
    null pointer, rather than counting an error. */
module TypingBreakdown {
  import opened Ast
  import opened LexicalScoping
  import opened SymbolTable
  import opened TypeChecking
  import opened TypingRules
  import opened TableDeclarations
  import opened TypingFrames
  import opened TypingExpressions
  import opened TypingCalls
  import opened TypingVisits
  import opened TypingSoundness
  import opened TypingVerdict

  // ---------- what becomes of an expression ----------

  /** The visit of an expression breaks down, or leaves it with a type or none. */
  datatype Outcome = Breaks | Leaves(ty: Option<Type>)

  /** An unbound identifier breaks, and so do an array of what has no array type, an operand that is
      itself a mismatched operation, an index without a type, and an index into what has none.
      Calls break only in their arguments, and are left without a type. */
  function OutcomeOf(g: Context, n: ASTNode, id: NodeId): Outcome
    decreases n, 1
  {
    match n
    case BooleanExpr(_, _) => Leaves(Some(BOOL))
    case NumberExpr(_, _) => Leaves(Some(NUMBER))
    case StringExpr(_, _) => Leaves(Some(STRING))
    case IdentifierExpr(_, _) =>
      if TypeOfUse(g.decls, g.uses, id).Some? then Leaves(TypeOfUse(g.decls, g.uses, id)) else Breaks
    case IndexedExpr(ident, index, _) =>
      if OutcomeOf(g, ident, id + [0]).Breaks? || OutcomeOf(g, index, id + [1]).Breaks? || CheckBreaks(g, index, id + [1])
      then Breaks
      else if OutcomeOf(g, ident, id + [0]).ty.None? then Breaks else OutcomeOf(g, ident, id + [0])
    case BinaryExpr(op, lhs, rhs, _) =>
      var left, right := OutcomeOf(g, lhs, id + [0]), OutcomeOf(g, rhs, id + [1]);
      if left.Breaks? || right.Breaks? then Breaks
      else if op == ASSIGNMENT && !lhs.IdentifierExpr? then Leaves(None)
      else
        var l, r := Operand(g, lhs, id + [0], left.ty), Operand(g, rhs, id + [1], right.ty);
        if l.None? || r.None? then Breaks
        else Leaves(if l == r then Some(OperationType(op, l.value)) else None)
    case ArrayExpr(elems, _) =>
      if exists i | 0 <= i < |elems| :: OutcomeOf(g, elems[i], id + [i]).Breaks? then Breaks
      else if elems == [] then Leaves(None)
      else if exists i | 0 <= i < |elems| :: TypeLeft(OutcomeOf(g, elems[i], id + [i])) != TypeLeft(OutcomeOf(g, elems[0], id + [0]))
      then Leaves(None)
      else if ArrayVersion(TypeLeft(OutcomeOf(g, elems[0], id + [0]))).None? then Breaks
      else Leaves(ArrayVersion(TypeLeft(OutcomeOf(g, elems[0], id + [0]))))
    case CallExpr(_, args, _) =>
      if exists i | 0 <= i < |args| :: OutcomeOf(g, args[i], id + [i]).Breaks? then Breaks else Leaves(None)
    case _ => Breaks
  }

  /** Reading the type of an expression that was left without gives the default. */
  function TypeLeft(outcome: Outcome): Type {
    if outcome.Leaves? && outcome.ty.Some? then outcome.ty.value else ERROR
  }

  /** The type that an operand is compared by. */
  function Operand(g: Context, n: ASTNode, id: NodeId, ty: Option<Type>): Option<Type> {
    if IsOperand(n) then ty else if g.quirks.unset.Some? then Some(g.quirks.unset.value(id)) else ty
  }

  /** Checking a visited expression against a type breaks down: it, or an operand, was left without
      a type and is no operation. */
  predicate CheckBreaks(g: Context, n: ASTNode, id: NodeId)
    decreases n, 2
  {
    if n.CallExpr? then false
    else if OutcomeOf(g, n, id).Leaves? && OutcomeOf(g, n, id).ty.Some? then false
    else if n.BinaryExpr? then CheckBreaks(g, n.lhs, id + [0]) || CheckBreaks(g, n.rhs, id + [1])
    else true
  }

  /** The outcome is visible in what is recorded, for operations down to their operands. */
  predicate Shown(g: Context, n: ASTNode, id: NodeId, st: State)
    decreases n
  {
    && OutcomeOf(g, n, id).Leaves?
    && (if OutcomeOf(g, n, id).ty.Some? then id in st.types && st.types[id] == OutcomeOf(g, n, id).ty.value else id !in st.types)
    && (n.IdentifierExpr? ==> SameUse(g, st, id))
    && (n.BinaryExpr? ==> Shown(g, n.lhs, id + [0], st) && Shown(g, n.rhs, id + [1], st))
  }

  lemma {:induction false} ShownStays(g: Context, n: ASTNode, id: NodeId, a: State, b: State)
    requires Shown(g, n, id, a) && forall k | id <= k :: AgreeAt(a, b, k)
    ensures Shown(g, n, id, b)
    decreases n
  {
    hide OutcomeOf;
    assert id <= id && AgreeAt(a, b, id);
    if n.BinaryExpr? {
      forall k | id + [0] <= k ensures AgreeAt(a, b, k) {
        BelowChild(id, 0, k);
      }
      forall k | id + [1] <= k ensures AgreeAt(a, b, k) {
        BelowChild(id, 1, k);
      }
      ShownStays(g, n.lhs, id + [0], a, b);
      ShownStays(g, n.rhs, id + [1], a, b);
    }
  }

  // ---------- checking ----------

  lemma FailedCheck(syms: Symbols, n: ASTNode, id: NodeId, ty: Type, st: State)
    requires st.failed
    ensures Check(syms, n, id, ty, st) == (false, st)
  {
  }

  lemma CheckUnfolds(g: Context, n: ASTNode, id: NodeId)
    requires !n.CallExpr? && OutcomeOf(g, n, id).Leaves?
    ensures CheckBreaks(g, n, id) <==>
              OutcomeOf(g, n, id).ty.None?
              && (n.BinaryExpr? ==> CheckBreaks(g, n.lhs, id + [0]) || CheckBreaks(g, n.rhs, id + [1]))
  {
    hide OutcomeOf;
  }

  lemma OwnShown(g: Context, n: ASTNode, id: NodeId, st: State)
    requires Shown(g, n, id, st)
    ensures OutcomeOf(g, n, id).Leaves?
    ensures match OutcomeOf(g, n, id).ty case Some(ty) => id in st.types && st.types[id] == ty case None => id !in st.types
    ensures n.BinaryExpr? ==> Shown(g, n.lhs, id + [0], st) && Shown(g, n.rhs, id + [1], st)
  {
    hide OutcomeOf;
  }

  lemma {:induction false} CheckShown(g: Context, syms: Symbols, n: ASTNode, id: NodeId, ty: Type, st: State)
    requires Simple(n) && Shown(g, n, id, st) && !st.failed
    ensures Check(syms, n, id, ty, st).1.failed <==> CheckBreaks(g, n, id)
    decreases n, 1
  {
    SimpleIsNoStmt(n);
    OwnShown(g, n, id, st);
    if n.CallExpr? {
      hide CheckCall;
      CallCheckNeverBreaks(syms, id, ty, st);
    } else {
      CheckUnfolds(g, n, id);
      hide OutcomeOf, CheckOperands, CheckBreaks, Shown, Simple;
      if n.BinaryExpr? && id !in st.types {
        SimpleChild(n, 0);
        SimpleChild(n, 1);
        OperandsShown(g, syms, n, id, ty, st);
      }
    }
  }

  lemma CallCheckNeverBreaks(syms: Symbols, id: NodeId, ty: Type, st: State)
    requires !st.failed
    ensures !CheckCall(syms, id, ty, st).1.failed
  {
    hide Entry, FirstReturning;
  }

  lemma {:induction false} OperandsShown(g: Context, syms: Symbols, n: ASTNode, id: NodeId, ty: Type, st: State)
    requires n.BinaryExpr? && Simple(n.lhs) && Simple(n.rhs) && !st.failed
    requires Shown(g, n.lhs, id + [0], st) && Shown(g, n.rhs, id + [1], st)
    ensures CheckOperands(syms, n, id, ty, st).1.failed <==> CheckBreaks(g, n.lhs, id + [0]) || CheckBreaks(g, n.rhs, id + [1])
    decreases n, 0
  {
    hide Check, Shown, CheckBreaks, Simple;
    var operand := if Compares(n.op) then NUMBER else ty;
    var mid := Check(syms, n.lhs, id + [0], operand, st).1;
    CheckShown(g, syms, n.lhs, id + [0], operand, st);
    CheckFrames(syms, n.lhs, id + [0], operand, st);
    if !mid.failed {
      forall k | id + [1] <= k ensures AgreeAt(st, mid, k) {
        ChildrenAreApart(id, 1, 0, k);
        assert AgreeAt(mid, st, k);
      }
      ShownStays(g, n.rhs, id + [1], st, mid);
      CheckShown(g, syms, n.rhs, id + [1], operand, mid);
    } else {
      FailedCheck(syms, n.rhs, id + [1], operand, mid);
    }
  }

  function ElementLeft(g: Context, n: ASTNode, j: nat, id: NodeId): Type
    requires n.ArrayExpr? && j < |n.elems|
  {
    TypeLeft(OutcomeOf(g, n.elems[j], id + [j]))
  }

  lemma {:induction false} ElementsHandledTo(g: Context, n: ASTNode, i: nat, id: NodeId, ty: Type, st: State)
    requires n.ArrayExpr? && i <= |n.elems| && !st.failed && id !in st.types
    requires forall j | 0 <= j < |n.elems| :: st.TypeAt(id + [j]) == ElementLeft(g, n, j, id)
    ensures var r := HandleElements(n, i, id, ty, st);
            if exists j | i <= j < |n.elems| :: ElementLeft(g, n, j, id) != ty then !r.failed && id !in r.types
            else if ArrayVersion(ty).None? then r.failed
            else !r.failed && id in r.types && Some(r.types[id]) == ArrayVersion(ty)
    decreases |n.elems| - i
  {
    hide ElementLeft;
    if i < |n.elems| {
      var mid := st.Read(id + [i]);
      assert mid.TypeAt(id + [i]) == ElementLeft(g, n, i, id);
      if ElementLeft(g, n, i, id) == ty {
        ElementsHandledTo(g, n, i + 1, id, ty, mid);
      }
    }
  }

  lemma ArrayOutcome(g: Context, n: ASTNode, id: NodeId, st: State)
    requires n.ArrayExpr? && !st.failed && id !in st.types
    requires forall j | 0 <= j < |n.elems| :: Shown(g, n.elems[j], id + [j], st)
    ensures var r := HandleArray(n, id, st);
            if OutcomeOf(g, n, id).Breaks? then r.failed else !r.failed && Shown(g, n, id, r)
  {
    if n.elems != [] {
      forall j | 0 <= j < |n.elems|
        ensures OutcomeOf(g, n.elems[j], id + [j]).Leaves? && st.TypeAt(id + [j]) == ElementLeft(g, n, j, id)
      {
        assert Shown(g, n.elems[j], id + [j], st);
      }
      var ty := st.TypeAt(id + [0]);
      ElementsHandledTo(g, n, 0, id, ty, st.Read(id + [0]));
      ArrayUnfolds(g, n, id, ty);
      hide OutcomeOf, HandleElements;
    }
  }

  lemma ArrayUnfolds(g: Context, n: ASTNode, id: NodeId, ty: Type)
    requires n.ArrayExpr? && n.elems != [] && ty == ElementLeft(g, n, 0, id)
    requires forall j | 0 <= j < |n.elems| :: OutcomeOf(g, n.elems[j], id + [j]).Leaves?
    ensures OutcomeOf(g, n, id)
         == if exists j | 0 <= j < |n.elems| :: ElementLeft(g, n, j, id) != ty then Leaves(None)
            else if ArrayVersion(ty).None? then Breaks else Leaves(ArrayVersion(ty))
  {
    forall j | 0 <= j < |n.elems| ensures TypeLeft(OutcomeOf(g, n.elems[j], id + [j])) == ElementLeft(g, n, j, id) {
    }
  }

  lemma OperandShown(g: Context, syms: Symbols, n: ASTNode, id: NodeId, st: State)
    requires Simple(n) && Shown(g, n, id, st) && Codes(g, syms)
    ensures OperandType(syms, n, id, st) == Operand(g, n, id, OutcomeOf(g, n, id).ty)
  {
    SimpleIsNoStmt(n);
    OwnShown(g, n, id, st);
    if n.IdentifierExpr? {
      SameUseShown(g, n, id, st);
    }
    OutcomeOfOperand(g, n, id);
    hide Shown, OutcomeOf, Simple;
  }

  lemma SameUseShown(g: Context, n: ASTNode, id: NodeId, st: State)
    requires Shown(g, n, id, st) && n.IdentifierExpr?
    ensures SameUse(g, st, id)
  {
    hide OutcomeOf;
  }

  lemma OutcomeOfOperand(g: Context, n: ASTNode, id: NodeId)
    ensures n.BooleanExpr? ==> OutcomeOf(g, n, id) == Leaves(Some(BOOL))
    ensures n.NumberExpr? ==> OutcomeOf(g, n, id) == Leaves(Some(NUMBER))
    ensures n.IdentifierExpr? && OutcomeOf(g, n, id).Leaves? ==> OutcomeOf(g, n, id).ty == TypeOfUse(g.decls, g.uses, id)
  {
  }

  lemma BinaryIs(syms: Symbols, n: ASTNode, id: NodeId, st: State, l: Option<Type>, r: Option<Type>)
    requires n.BinaryExpr? && !n.lhs.Null?
    requires OperandType(syms, n.lhs, id + [0], st) == l && OperandType(syms, n.rhs, id + [1], st) == r
    ensures HandleBinary(syms, n, id, st) ==
              if n.op == ASSIGNMENT && !n.lhs.IdentifierExpr? then st.Error()
              else if l.None? || r.None? then st.Fail()
              else if l == r then st.Typed(id, ResultType(n.op, l.value)) else st.Error()
  {
    hide OperandType, ResultType;
  }

  lemma BinaryOutcome(g: Context, syms: Symbols, n: ASTNode, id: NodeId, st: State)
    requires n.BinaryExpr? && Simple(n) && !st.failed && id !in st.types && Codes(g, syms)
    requires Shown(g, n.lhs, id + [0], st) && Shown(g, n.rhs, id + [1], st)
    ensures var r := HandleBinary(syms, n, id, st);
            if OutcomeOf(g, n, id).Breaks? then r.failed else !r.failed && Shown(g, n, id, r)
  {
    SimpleChild(n, 0);
    SimpleChild(n, 1);
    OperandShown(g, syms, n.lhs, id + [0], st);
    OperandShown(g, syms, n.rhs, id + [1], st);
    SimpleIsNoStmt(n.lhs);
    OwnShown(g, n.lhs, id + [0], st);
    OwnShown(g, n.rhs, id + [1], st);
    BinaryUnfolds(g, n, id);
    BinaryIs(syms, n, id, st, OperandType(syms, n.lhs, id + [0], st), OperandType(syms, n.rhs, id + [1], st));
    hide HandleBinary, OperandType, Operand, Simple, Shown, UseType, OutcomeOf, AgreeAt;
    var r := HandleBinary(syms, n, id, st);
    if !r.failed {
      OperandsStayShown(g, n, id, st, r);
      BinaryShown(g, n, id, r);
    }
  }

  lemma OperandsStayShown(g: Context, n: ASTNode, id: NodeId, st: State, r: State)
    requires n.BinaryExpr? && Shown(g, n.lhs, id + [0], st) && Shown(g, n.rhs, id + [1], st)
    requires r.uses == st.uses && r.overloads == st.overloads
    requires forall k | k != id :: (k in r.types <==> k in st.types) && (k in st.types ==> r.types[k] == st.types[k])
    ensures Shown(g, n.lhs, id + [0], r) && Shown(g, n.rhs, id + [1], r)
  {
    hide Shown;
    forall k | id + [0] <= k || id + [1] <= k ensures AgreeAt(st, r, k) {
      BelowChild(id, 0, k);
      BelowChild(id, 1, k);
    }
    ShownStays(g, n.lhs, id + [0], st, r);
    ShownStays(g, n.rhs, id + [1], st, r);
  }

  lemma BinaryUnfolds(g: Context, n: ASTNode, id: NodeId)
    requires n.BinaryExpr? && OutcomeOf(g, n.lhs, id + [0]).Leaves? && OutcomeOf(g, n.rhs, id + [1]).Leaves?
    ensures var l := Operand(g, n.lhs, id + [0], OutcomeOf(g, n.lhs, id + [0]).ty);
            var r := Operand(g, n.rhs, id + [1], OutcomeOf(g, n.rhs, id + [1]).ty);
            OutcomeOf(g, n, id) ==
              if n.op == ASSIGNMENT && !n.lhs.IdentifierExpr? then Leaves(None)
              else if l.None? || r.None? then Breaks
              else Leaves(if l == r then Some(OperationType(n.op, l.value)) else None)
  {
    hide Operand;
  }

  lemma BinaryShown(g: Context, n: ASTNode, id: NodeId, st: State)
    requires n.BinaryExpr? && Shown(g, n.lhs, id + [0], st) && Shown(g, n.rhs, id + [1], st)
    requires OutcomeOf(g, n, id).Leaves?
    requires match OutcomeOf(g, n, id).ty case Some(ty) => id in st.types && st.types[id] == ty case None => id !in st.types
    ensures Shown(g, n, id, st)
  {
    hide OutcomeOf;
  }

  lemma IndexedOutcome(g: Context, syms: Symbols, n: ASTNode, id: NodeId, st: State)
    requires n.IndexedExpr? && Simple(n) && !st.failed && id !in st.types
    requires Shown(g, n.ident, id + [0], st) && Shown(g, n.index, id + [1], st)
    ensures var r := HandleIndexed(syms, n, id, st);
            if OutcomeOf(g, n, id).Breaks? then r.failed else !r.failed && Shown(g, n, id, r)
  {
    SimpleChild(n, 1);
    OwnShown(g, n.ident, id + [0], st);
    OwnShown(g, n.index, id + [1], st);
    CheckShown(g, syms, n.index, id + [1], NUMBER, st);
    CheckFrames(syms, n.index, id + [1], NUMBER, st);
    var after := Check(syms, n.index, id + [1], NUMBER, st).1;
    BelowChild(id, 1, id + [0]);
    assert AgreeAt(after, st, id + [0]);
    IndexedUnfolds(g, n, id);
    hide Check, CheckBreaks, OutcomeOf, Simple;
    var r := HandleIndexed(syms, n, id, st);
    if !r.failed {
      ShownByOwn(g, n, id, r);
    }
  }

  lemma IndexedUnfolds(g: Context, n: ASTNode, id: NodeId)
    requires n.IndexedExpr? && OutcomeOf(g, n.ident, id + [0]).Leaves? && OutcomeOf(g, n.index, id + [1]).Leaves?
    ensures OutcomeOf(g, n, id) == if CheckBreaks(g, n.index, id + [1]) || OutcomeOf(g, n.ident, id + [0]).ty.None? then Breaks
                                   else OutcomeOf(g, n.ident, id + [0])
  {
    hide CheckBreaks;
  }

  lemma ShownByOwn(g: Context, n: ASTNode, id: NodeId, st: State)
    requires !n.BinaryExpr? && !n.IdentifierExpr? && OutcomeOf(g, n, id).Leaves?
    requires match OutcomeOf(g, n, id).ty case Some(ty) => id in st.types && st.types[id] == ty case None => id !in st.types
    ensures Shown(g, n, id, st)
  {
    hide OutcomeOf;
  }

  // ---------- calls ----------

  lemma {:induction false} ArgumentsNeverBreak(syms: Symbols, n: ASTNode, i: nat, id: NodeId, s: seq<NodeId>, st: State)
    requires n.CallExpr? && Simple(n) && i <= |n.args| && !st.failed
    ensures var r := HandleArguments(syms, n, i, id, s, st); !r.failed && (id in r.types ==> id in st.types)
    decreases |n.args| - i
  {
    hide WithParameter, WithReturnOf, Simple;
    if i < |n.args| {
      ArgumentIsThere(n, i);
      if !n.args[i].CallExpr? {
        var rest := WithParameter(syms.table, s, i, st.TypeAt(id + [i]));
        ArgumentsNeverBreak(syms, n, i + 1, id, rest, if s == [] then st else st.Read(id + [i]));
      } else if id + [i] in st.overloads && st.overloads[id + [i]] != [] {
        ArgumentsNeverBreak(syms, n, i + 1, id, WithReturnOf(syms.table, s, st.overloads[id + [i]]), st);
      }
    }
  }

  lemma CallOutcome(g: Context, syms: Symbols, n: ASTNode, id: NodeId, st: State)
    requires n.CallExpr? && Simple(n) && !st.failed && id !in st.types
    requires forall j | 0 <= j < |n.args| :: Shown(g, n.args[j], id + [j], st)
    ensures var r := HandleCall(syms, n, id, st); OutcomeOf(g, n, id).Leaves? && !r.failed && Shown(g, n, id, r)
  {
    forall j | 0 <= j < |n.args| ensures OutcomeOf(g, n.args[j], id + [j]).Leaves? {
      OwnShown(g, n.args[j], id + [j], st);
    }
    assert OutcomeOf(g, n, id) == Leaves(None);
    hide HandleArguments, WithName, Simple, OutcomeOf, Shown;
    var s := WithArity(syms.table, WithName(syms.table, syms.order, n.name), |n.args|);
    ArgumentsNeverBreak(syms, n, 0, id, s, st);
    ShownByOwn(g, n, id, HandleCall(syms, n, id, st));
  }

  // ---------- visiting expressions ----------

  lemma HandledOutcome(g: Context, syms: Symbols, n: ASTNode, id: NodeId, st: State)
    requires Simple(n) && !st.failed && NewAt(g, st, id) && Codes(g, syms)
    requires forall j | 0 <= j < |n.Children()| :: Shown(g, n.Children()[j], id + [j], st)
    ensures var r := Handle(syms, n, id, st);
            if OutcomeOf(g, n, id).Breaks? then r.failed else !r.failed && Shown(g, n, id, r)
  {
    if n.ArrayExpr? {
      ArrayOutcome(g, n, id, st);
    } else if n.BinaryExpr? {
      assert n.Children()[0] == n.lhs && n.Children()[1] == n.rhs;
      BinaryOutcome(g, syms, n, id, st);
    } else if n.IndexedExpr? {
      assert n.Children()[0] == n.ident && n.Children()[1] == n.index;
      IndexedOutcome(g, syms, n, id, st);
    } else if n.CallExpr? {
      CallOutcome(g, syms, n, id, st);
    }
  }

  /** The visit of an expression breaks down exactly when it is said to. */
  lemma {:induction false} ExprOutcome(g: Context, syms: Symbols, n: ASTNode, id: NodeId, st: State)
    requires Simple(n) && !st.failed && Codes(g, syms) && Ahead(g, st, id)
    ensures var r := Visit(syms, n, id, st);
            if OutcomeOf(g, n, id).Breaks? then r.failed else !r.failed && Shown(g, n, id, r)
    decreases n, |n.Children()| + 1
  {
    SimpleIsEntered(syms, n, id, st);
    AheadOfAll(g, st, id);
    ExprsOutcome(g, syms, n, 0, id, st);
    VisitFromFrames(syms, n, 0, id, st);
    var mid := VisitFrom(syms, n, 0, id, st);
    StillNew(g, st, mid, id);
    hide Visit, VisitFrom, Handle, OutcomeOf, Shown, Simple, Ahead, AheadFrom, OutsideFrom;
    if exists j | 0 <= j < |n.Children()| :: OutcomeOf(g, n.Children()[j], id + [j]).Breaks? {
      BrokenChild(g, n, id);
    } else {
      HandledOutcome(g, syms, n, id, mid);
    }
  }

  lemma BrokenChild(g: Context, n: ASTNode, id: NodeId)
    requires Simple(n) && exists j | 0 <= j < |n.Children()| :: OutcomeOf(g, n.Children()[j], id + [j]).Breaks?
    ensures OutcomeOf(g, n, id).Breaks?
  {
    var j :| 0 <= j < |n.Children()| && OutcomeOf(g, n.Children()[j], id + [j]).Breaks?;
    if n.ArrayExpr? {
      assert OutcomeOf(g, n.elems[j], id + [j]).Breaks?;
    } else if n.CallExpr? {
      assert OutcomeOf(g, n.args[j], id + [j]).Breaks?;
    }
  }

  lemma {:induction false} ExprsOutcome(g: Context, syms: Symbols, n: ASTNode, i: nat, id: NodeId, st: State)
    requires Simple(n) && i <= |n.Children()| && !st.failed && Codes(g, syms) && AheadFrom(g, st, id, i)
    ensures var r := VisitFrom(syms, n, i, id, st);
            if exists j | i <= j < |n.Children()| :: OutcomeOf(g, n.Children()[j], id + [j]).Breaks? then r.failed
            else !r.failed && forall j | i <= j < |n.Children()| :: Shown(g, n.Children()[j], id + [j], r)
    decreases n, |n.Children()| - i
  {
    hide Visit, Simple, OutcomeOf, Shown, OutsideFrom, AheadFrom;
    if i < |n.Children()| {
      var child := n.Children()[i];
      var mid := Visit(syms, child, id + [i], st);
      SimpleChild(n, i);
      AheadOfChild(g, st, id, i);
      ExprOutcome(g, syms, child, id + [i], st);
      VisitFrames(syms, child, id + [i], st);
      if !mid.failed {
        AheadBehindChild(g, st, mid, id, i);
        ExprsOutcome(g, syms, n, i + 1, id, mid);
        VisitFromFrames(syms, n, i + 1, id, mid);
        ShownOutside(g, child, id, i, mid, VisitFrom(syms, n, i + 1, id, mid));
      }
    }
  }

  lemma ShownOutside(g: Context, child: ASTNode, id: NodeId, i: nat, a: State, b: State)
    requires OutsideFrom(b, a, id, i + 1)
    ensures Shown(g, child, id + [i], a) && !b.failed ==> Shown(g, child, id + [i], b)
  {
    if Shown(g, child, id + [i], a) {
      forall k | id + [i] <= k ensures AgreeAt(a, b, k) {
        BelowChild(id, i, k);
        assert AgreeAt(b, a, k);
      }
      ShownStays(g, child, id + [i], a, b);
    }
  }

  // ---------- statements and programs ----------

  /** A program, declaration or statement, which may be part of the function `func`: an initializer
      of an undeclared variable breaks, a return outside functions, and a bare return where a value
      is to be returned; for the rest, what is asked for a type must have been left with one. */
  predicate NodeBreaks(g: Context, n: ASTNode, id: NodeId, func: Option<NodeId>)
    decreases n
  {
    match n
    case ProgramDecl(decls) => exists i | 0 <= i < |decls| :: NodeBreaks(g, decls[i], id + [i], func)
    case FunctionDecl(_, _, _, body, _) => NodeBreaks(g, body, id + [1], Some(id))
    case VarDecl(_, _, _, _, init, _) =>
      !init.Null? && (OutcomeOf(g, init, id + [0]).Breaks? || DeclaredType(g.decls, id).None? || CheckBreaks(g, init, id + [0]))
    case CompoundStmt(stmts) => exists i | 0 <= i < |stmts| :: NodeBreaks(g, stmts[i], id + [i], func)
    case IfStmt(cond, body, _) => AskedBreaks(g, cond, id + [0]) || NodeBreaks(g, body, id + [1], func)
    case WhileStmt(cond, body, _) => AskedBreaks(g, cond, id + [0]) || NodeBreaks(g, body, id + [1], func)
    case PrintStmt(message, _) => !message.Null? && OutcomeOf(g, message, id + [0]).Breaks?
    case ReturnStmt(result, _) => ReturnBreaks(g, result, id + [0], ResultOf(g.decls, func))
    case ScanStmt(input, _) => OutcomeOf(g, input, id + [0]).Breaks?
    case SleepStmt(count, _) => OutcomeOf(g, count, id + [0]).Breaks?
    case SpawnExpr(call, _) => OutcomeOf(g, call, id + [0]).Breaks?
    case SyncStmt(_) => false
    case _ => !IsMissing(n) && OutcomeOf(g, n, id).Breaks?
  }

  predicate AskedBreaks(g: Context, n: ASTNode, id: NodeId) {
    OutcomeOf(g, n, id).Breaks? || CheckBreaks(g, n, id)
  }

  /** The result is `n`, null for a bare return. */
  predicate ReturnBreaks(g: Context, n: ASTNode, id: NodeId, declared: Option<Type>) {
    if n.Null? then declared != Some(VOID)
    else OutcomeOf(g, n, id).Breaks? || declared.None? || (declared != Some(VOID) && CheckBreaks(g, n, id))
  }

  /** The visit of `n` breaks down exactly when it is said to. */
  ghost predicate Foretold(g: Context, n: ASTNode, id: NodeId, st: State, r: State) {
    (r.failed <==> NodeBreaks(g, n, id, st.func)) && (!r.failed ==> r.func == st.func)
  }

  lemma VarOutcome(g: Context, syms: Symbols, n: ASTNode, id: NodeId, st: State)
    requires n.VarDecl? && Checkable(n) && !st.failed && Codes(g, syms) && Ahead(g, st, id)
    ensures Foretold(g, n, id, st, Visit(syms, n, id, st))
  {
    hide Visit, Simple, OutcomeOf, CheckBreaks, Shown, Ahead;
    if n.init.Null? {
      LeafVisited(syms, n, id, st);
    } else {
      VarIsEntered(syms, n, id, st);
      AheadChild(g, st, id, 0);
      ExprOutcome(g, syms, n.init, id + [0], st);
      SimpleIsStable(syms, n.init, id + [0], st);
      var mid, ty := Visit(syms, n.init, id + [0], st), DeclaredType(g.decls, id);
      if !mid.failed && ty.Some? {
        hide Check;
        CheckShown(g, syms, n.init, id + [0], ty.value, mid);
      }
    }
  }

  lemma ReturnOutcome(g: Context, syms: Symbols, n: ASTNode, id: NodeId, st: State)
    requires n.ReturnStmt? && Checkable(n) && !st.failed && Codes(g, syms) && Ahead(g, st, id)
    ensures Foretold(g, n, id, st, Visit(syms, n, id, st))
  {
    hide Visit, Simple, OutcomeOf, CheckBreaks, Shown, Ahead;
    if n.result.Null? {
      BareReturnIsEntered(syms, n, id, st);
    } else {
      ReturnIsEntered(syms, n, id, st);
      AheadChild(g, st, id, 0);
      ExprOutcome(g, syms, n.result, id + [0], st);
      SimpleIsStable(syms, n.result, id + [0], st);
      var mid, ty := Visit(syms, n.result, id + [0], st), ResultOf(g.decls, st.func);
      if !mid.failed && ty.Some? {
        hide Check;
        CheckShown(g, syms, n.result, id + [0], ty.value, mid);
      }
    }
  }

  lemma WrapperOutcome(g: Context, syms: Symbols, n: ASTNode, e: ASTNode, id: NodeId, st: State)
    requires n.PrintStmt? || n.ScanStmt? || n.SleepStmt? || n.SpawnExpr?
    requires n.Children() == [e] && Simple(e) && (n.SpawnExpr? ==> e.CallExpr?)
    requires !st.failed && Codes(g, syms) && Ahead(g, st, id)
    ensures Foretold(g, n, id, st, Visit(syms, n, id, st))
  {
    hide Visit, Simple, OutcomeOf, Shown, Ahead;
    assert n.Children()[0] == e;
    AheadChild(g, st, id, 0);
    ExprOutcome(g, syms, e, id + [0], st);
    SimpleIsStable(syms, e, id + [0], st);
    WrapperIsEntered(syms, n, e, id, st);
  }

  // ---------- bodies ----------

  lemma {:induction false} ListOutcome(g: Context, syms: Symbols, n: ASTNode, i: nat, id: NodeId, st: State)
    requires IsList(n) && Checkable(n) && i <= |n.Children()| && (n.ProgramDecl? ==> st.func.None?)
    requires !st.failed && Codes(g, syms) && AheadFrom(g, st, id, i)
    ensures var r := VisitFrom(syms, n, i, id, st);
            && (r.failed <==> exists j | i <= j < |n.Children()| :: NodeBreaks(g, n.Children()[j], id + [j], st.func))
            && (!r.failed ==> r.func == st.func)
    decreases n, |n.Children()| - i
  {
    hide Visit, NodeBreaks, AheadFrom, Checkable;
    if i < |n.Children()| {
      var child := n.Children()[i];
      var mid := Visit(syms, child, id + [i], st);
      ListChild(n, i);
      AheadOfChild(g, st, id, i);
      NodeOutcome(g, syms, child, id + [i], st);
      VisitFrames(syms, child, id + [i], st);
      if !mid.failed {
        AheadBehindChild(g, st, mid, id, i);
        ListOutcome(g, syms, n, i + 1, id, mid);
      }
    }
  }

  lemma BranchOutcome(g: Context, syms: Symbols, n: ASTNode, id: NodeId, st: State)
    requires (n.IfStmt? || n.WhileStmt?) && Checkable(n) && !st.failed && Codes(g, syms) && Ahead(g, st, id)
    ensures Foretold(g, n, id, st, Visit(syms, n, id, st))
    decreases n, |n.Children()| + 1
  {
    BranchIsEntered(syms, n, id, st);
    ConditionOutcome(g, syms, n.cond, id, st);
    var mid := Visit(syms, n.cond, id + [0], st);
    assert Simple(n.cond) && Checkable(n.body) && !n.body.FunctionDecl? && !n.body.ProgramDecl?;
    hide Visit, Simple, OutcomeOf, CheckBreaks, Shown, Check, Ahead, Checkable;
    if !mid.failed {
      NodeOutcome(g, syms, n.body, id + [1], mid);
      VisitFrames(syms, n.body, id + [1], mid);
      var after := Visit(syms, n.body, id + [1], mid);
      if !after.failed {
        ConditionShown(g, n.cond, id, mid, after);
        CheckShown(g, syms, n.cond, id + [0], BOOL, after);
      }
    }
  }

  lemma ConditionOutcome(g: Context, syms: Symbols, e: ASTNode, id: NodeId, st: State)
    requires Simple(e) && !st.failed && Codes(g, syms) && Ahead(g, st, id)
    ensures var mid := Visit(syms, e, id + [0], st);
            && (mid.failed <==> OutcomeOf(g, e, id + [0]).Breaks?) && mid.func == st.func
            && (!mid.failed ==> Ahead(g, mid, id + [1]) && Shown(g, e, id + [0], mid))
  {
    AheadOfAll(g, st, id);
    AheadOfChild(g, st, id, 0);
    hide Visit, Simple, OutcomeOf, Shown, AheadFrom, Ahead;
    ExprOutcome(g, syms, e, id + [0], st);
    SimpleIsStable(syms, e, id + [0], st);
    VisitFrames(syms, e, id + [0], st);
    var mid := Visit(syms, e, id + [0], st);
    if !mid.failed {
      AheadBehindChild(g, st, mid, id, 0);
      AheadOfChild(g, mid, id, 1);
    }
  }

  lemma ConditionShown(g: Context, e: ASTNode, id: NodeId, a: State, b: State)
    requires Outside(b, a, id + [1])
    ensures Shown(g, e, id + [0], a) ==> Shown(g, e, id + [0], b)
  {
    if Shown(g, e, id + [0], a) {
      forall k | id + [0] <= k ensures AgreeAt(a, b, k) {
        ChildrenAreApart(id, 0, 1, k);
        assert AgreeAt(b, a, k);
      }
      ShownStays(g, e, id + [0], a, b);
    }
  }

  lemma FunctionOutcome(g: Context, syms: Symbols, n: ASTNode, id: NodeId, st: State)
    requires n.FunctionDecl? && Checkable(n) && st.func.None? && !st.failed && Codes(g, syms) && Ahead(g, st, id)
    ensures Foretold(g, n, id, st, Visit(syms, n, id, st))
    decreases n, |n.Children()| + 1
  {
    FunctionIsEntered(syms, n, id, st);
    AheadChild(g, st, id, 1);
    var inner := st.(func := Some(id));
    assert Checkable(n.body) && Ahead(g, inner, id + [1]) by {
      forall k | id + [1] <= k ensures NewAt(g, inner, k) {
        assert NewAt(g, st, k);
      }
    }
    hide Visit, Checkable, Ahead;
    NodeOutcome(g, syms, n.body, id + [1], inner);
  }

  lemma NodeOutcome(g: Context, syms: Symbols, n: ASTNode, id: NodeId, st: State)
    requires Checkable(n) && (n.FunctionDecl? || n.ProgramDecl? ==> st.func.None?)
    requires !st.failed && Codes(g, syms) && Ahead(g, st, id)
    ensures Foretold(g, n, id, st, Visit(syms, n, id, st))
    decreases n, |n.Children()| + 2
  {
    hide Visit, Ahead;
    if n.ProgramDecl? || n.CompoundStmt? {
      ListIsEntered(syms, n, id, st);
      AheadOfAll(g, st, id);
      ListOutcome(g, syms, n, 0, id, st);
    } else if n.FunctionDecl? {
      FunctionOutcome(g, syms, n, id, st);
    } else if n.VarDecl? {
      VarOutcome(g, syms, n, id, st);
    } else if n.IfStmt? || n.WhileStmt? {
      BranchOutcome(g, syms, n, id, st);
    } else if n.ReturnStmt? {
      ReturnOutcome(g, syms, n, id, st);
    } else if n.SyncStmt? || (n.PrintStmt? && n.message.Null?) || IsMissing(n) {
      LeafVisited(syms, n, id, st);
    } else if n.PrintStmt? {
      WrapperOutcome(g, syms, n, n.message, id, st);
    } else if n.ScanStmt? {
      WrapperOutcome(g, syms, n, n.input, id, st);
    } else if n.SleepStmt? {
      WrapperOutcome(g, syms, n, n.count, id, st);
    } else if n.SpawnExpr? {
      WrapperOutcome(g, syms, n, n.call, id, st);
    } else {
      ExprOutcome(g, syms, n, id, st);
      SimpleIsStable(syms, n, id, st);
    }
  }

  /** A run on a program breaks down exactly when it is said to; it counts an error, and does not
      break down, exactly when the program is not well typed and does not break it. */
  lemma BreakdownExactly(syms: Symbols, root: ASTNode, uses: map<NodeId, NodeId>)
    requires root.ProgramDecl? && Checkable(root)
    ensures var g, st := Context(DeclarationsIn(syms.table), uses, Coded(syms.noise)), Checked(syms, root, uses);
            && (st.failed <==> NodeBreaks(g, root, [], None))
            && (syms.Valid() && Collected(syms.table) ==>
                 (!st.failed && st.errors > 0 <==> !WellTyped(g, root, [], None) && !NodeBreaks(g, root, [], None)))
  {
    var g := Context(DeclarationsIn(syms.table), uses, Coded(syms.noise));
    NodeOutcome(g, syms, root, [], Start(uses));
    hide Visit, Checkable, NodeBreaks, WellTyped;
    if syms.Valid() && Collected(syms.table) {
      VerdictIsTyping(syms, root, uses);
    }
  }

  // ---------- inputs ----------

  /** A bare return breaks the run down exactly when it is not in a function without a result. */
  lemma BareReturnBreaks(syms: Symbols, n: ASTNode, id: NodeId, st: State)
    requires n.ReturnStmt? && n.result.Null? && !st.failed
    ensures Visit(syms, n, id, st).failed <==> ResultOf(DeclarationsIn(syms.table), st.func) != Some(VOID)
  {
    BareReturnIsEntered(syms, n, id, st);
    hide Visit;
  }

  /** `fn f() -> Int { return; }` */
  function BareReturn(loc: SourceLocation): ASTNode {
    ProgramDecl([FunctionDecl("f", NUMBER, ParamVarDecls([]), CompoundStmt([ReturnStmt(Null, loc)]), loc)])
  }

  lemma BareReturnProgramBreaks(syms: Symbols, uses: map<NodeId, NodeId>, loc: SourceLocation)
    requires [0] in syms.table && syms.table[[0]] == FunctionSymbol([NUMBER], "f")
    ensures Checked(syms, BareReturn(loc), uses).failed
  {
    var g := Context(DeclarationsIn(syms.table), uses, Coded(syms.noise));
    BareReturnIsCheckable(loc);
    hide BareReturn;
    BareReturnNodeBreaks(g, loc);
    hide Checked, NodeBreaks, Checkable;
    BreakdownExactly(syms, BareReturn(loc), uses);
  }

  lemma BareReturnIsCheckable(loc: SourceLocation)
    ensures BareReturn(loc).ProgramDecl? && Checkable(BareReturn(loc))
  {
    var root := BareReturn(loc);
    var body := root.decls[0].body;
    assert Checkable(body.stmts[0]) && Checkable(body) && Checkable(root.decls[0]);
  }

  lemma BareReturnNodeBreaks(g: Context, loc: SourceLocation)
    requires [0] in g.decls && g.decls[[0]].Function? && g.decls[[0]].result == NUMBER
    ensures NodeBreaks(g, BareReturn(loc), [], None)
  {
    var root := BareReturn(loc);
    var body := root.decls[0].body;
    assert [] + [0] == [0];
    assert NodeBreaks(g, body.stmts[0], [0] + [1] + [0], Some([0]));
    assert NodeBreaks(g, body, [0] + [1], Some([0]));
    assert NodeBreaks(g, root.decls[0], [] + [0], None);
  }

  /** A program of one variable with an initializer. */
  function OneVariable(name: string, ty: Type, size: int, init: ASTNode, loc: SourceLocation): ASTNode {
    ProgramDecl([VarDecl(name, ty, false, size, init, loc)])
  }

  lemma OneVariableBreaks(syms: Symbols, uses: map<NodeId, NodeId>, name: string, ty: Type, size: int, init: ASTNode, loc: SourceLocation)
    requires Simple(init) && AskedBreaks(Context(DeclarationsIn(syms.table), uses, Coded(syms.noise)), init, [0, 0])
    ensures Checked(syms, OneVariable(name, ty, size, init, loc), uses).failed
  {
    var root, g := OneVariable(name, ty, size, init, loc), Context(DeclarationsIn(syms.table), uses, Coded(syms.noise));
    assert !init.Null? by { SimpleIsNoStmt(init); }
    hide Simple, AskedBreaks, Checked;
    assert Checkable(root.decls[0]) && Checkable(root);
    assert [] + [0] + [0] == [0, 0];
    assert AskedBreaks(g, init, [] + [0] + [0]);
    assert NodeBreaks(g, root.decls[0], [] + [0], None) by { AskedInitBreaks(g, root.decls[0], [] + [0]); }
    assert NodeBreaks(g, root, [], None);
    BreakdownExactly(syms, root, uses);
  }

  lemma AskedInitBreaks(g: Context, n: ASTNode, id: NodeId)
    requires n.VarDecl? && !n.init.Null? && AskedBreaks(g, n.init, id + [0])
    ensures NodeBreaks(g, n, id, None)
  {
  }

  /** `var a: Int[2] = {1, True};` */
  lemma MixedArrayBreaks(syms: Symbols, uses: map<NodeId, NodeId>, loc: SourceLocation)
    ensures var init := ArrayExpr([NumberExpr(1, loc), BooleanExpr(true, loc)], loc);
            Checked(syms, OneVariable("a", NUMBER_ARRAY, 2, init, loc), uses).failed
  {
    var g := Context(DeclarationsIn(syms.table), uses, Coded(syms.noise));
    var one, two := NumberExpr(1, loc), BooleanExpr(true, loc);
    var init := ArrayExpr([one, two], loc);
    assert Simple(init);
    assert init.elems[0] == one && init.elems[1] == two;
    assert TypeLeft(OutcomeOf(g, init.elems[0], [0, 0] + [0])) == NUMBER;
    assert TypeLeft(OutcomeOf(g, init.elems[1], [0, 0] + [1])) == BOOL;
    assert OutcomeOf(g, init, [0, 0]) == Leaves(None);
    hide OutcomeOf;
    assert CheckBreaks(g, init, [0, 0]);
    OneVariableBreaks(syms, uses, "a", NUMBER_ARRAY, 2, init, loc);
  }

  /** `var a: Int[1] = {f()};`, whatever `f` is */
  lemma CallElementBreaks(syms: Symbols, uses: map<NodeId, NodeId>, name: string, loc: SourceLocation)
    ensures var init := ArrayExpr([CallExpr(name, [], loc)], loc);
            Checked(syms, OneVariable("a", NUMBER_ARRAY, 1, init, loc), uses).failed
  {
    var g := Context(DeclarationsIn(syms.table), uses, Coded(syms.noise));
    var call := CallExpr(name, [], loc);
    var init := ArrayExpr([call], loc);
    assert Simple(call) && Simple(init);
    assert OutcomeOf(g, call, [0, 0] + [0]) == Leaves(None) && init.elems[0] == call;
    assert OutcomeOf(g, init, [0, 0]).Breaks?;
    hide OutcomeOf;
    OneVariableBreaks(syms, uses, "a", NUMBER_ARRAY, 1, init, loc);
  }

  /** `var b: Int = 1 + True + 2;`, which is read as `1 + (True + 2)` */
  lemma MismatchedOperandBreaks(syms: Symbols, uses: map<NodeId, NodeId>, loc: SourceLocation)
    ensures var init := BinaryExpr(PLUS, NumberExpr(1, loc), BinaryExpr(PLUS, BooleanExpr(true, loc), NumberExpr(2, loc), loc), loc);
            Checked(syms, OneVariable("b", NUMBER, 0, init, loc), uses).failed
  {
    var g := Context(DeclarationsIn(syms.table), uses, Coded(syms.noise));
    var right := BinaryExpr(PLUS, BooleanExpr(true, loc), NumberExpr(2, loc), loc);
    var init := BinaryExpr(PLUS, NumberExpr(1, loc), right, loc);
    assert Simple(right.lhs) && Simple(right.rhs) && Simple(right);
    assert Simple(init.lhs) && Simple(init);
    assert OutcomeOf(g, right, [0, 0] + [1]) == Leaves(None);
    assert OutcomeOf(g, init, [0, 0]).Breaks?;
    OneVariableBreaks(syms, uses, "b", NUMBER, 0, init, loc);
  }
}
