/** When the rules as coded agree with the rules as intended, quirk by quirk and for whole
    programs. */
module TypingIntent {
  import opened Ast
  import opened LexicalScoping
  import opened SymbolTable
  import opened TypeChecking
  import opened TypingRules
  import opened TableDeclarations
  import opened TypingExpressions
  import opened TypingCalls
  import opened TypingVisits
  import opened TypingSoundness
  import opened TypingVerdict
  import opened NestedVerdict

  /** The same declarations and bindings under other rules. */
  predicate SameProgram(g: Context, h: Context) {
    g.decls == h.decls && g.uses == h.uses
  }

  // ---------- expressions without calls ----------

  lemma PlainChild(n: ASTNode, i: nat)
    requires Plain(n) && i < |n.Children()|
    ensures Plain(n.Children()[i]) && !n.Children()[i].CallExpr?
  {
  }

  lemma {:induction false} PlainIsSimple(n: ASTNode)
    requires Plain(n)
    ensures Simple(n) && !n.CallExpr?
    decreases n
  {
    if n.ArrayExpr? {
      forall i | 0 <= i < |n.elems| ensures Simple(n.elems[i]) {
        PlainIsSimple(n.elems[i]);
      }
    } else if n.BinaryExpr? {
      PlainIsSimple(n.lhs);
      PlainIsSimple(n.rhs);
    } else if n.IndexedExpr? {
      PlainIsSimple(n.index);
    }
  }

  /** Where there are no calls none is ambiguous. */
  lemma {:induction false} PlainIsUnambiguous(g: Context, n: ASTNode, id: NodeId)
    requires Plain(n)
    ensures Unambiguous(g, n, id) && Inner(g, n, id)
    decreases n
  {
    hide Means, Plain;
    PlainIsSimple(n);
    forall i | 0 <= i < |n.Children()|
      ensures Unambiguous(g, n.Children()[i], id + [i]) && Inner(g, n.Children()[i], id + [i])
    {
      PlainChild(n, i);
      PlainIsUnambiguous(g, n.Children()[i], id + [i]);
    }
  }

  /** An operand whose type is looked up counts as of that type. */
  lemma LookedUp(g: Context, n: ASTNode, id: NodeId)
    requires IsOperand(n)
    ensures OperandTypeOf(g, n, id) == TypeOf(g, n, id)
  {
    hide TypeOf;
  }

  lemma ValueOfPlain(g: Context, n: ASTNode, id: NodeId)
    requires !n.CallExpr?
    ensures ValueType(g, n, id) == TypeOf(g, n, id)
  {
    hide TypeOf;
  }

  lemma OperationTypeOf(g: Context, n: ASTNode, id: NodeId)
    requires n.BinaryExpr? && IsOperand(n.lhs) && IsOperand(n.rhs)
    ensures var left, right := TypeOf(g, n.lhs, id + [0]), TypeOf(g, n.rhs, id + [1]);
            TypeOf(g, n, id) == if left.Some? && left == right && (n.op == ASSIGNMENT ==> n.lhs.IdentifierExpr?)
                                then Some(OperationType(n.op, left.value)) else None
  {
    LookedUp(g, n.lhs, id + [0]);
    LookedUp(g, n.rhs, id + [1]);
    hide OperandTypeOf;
  }

  /** There is an index expression somewhere. */
  predicate HasIndex(n: ASTNode)
    decreases n
  {
    n.IndexedExpr? || exists i | 0 <= i < |n.Children()| :: HasIndex(n.Children()[i])
  }

  /** The type of every operand is looked up. */
  predicate LooksUpAll(n: ASTNode)
    decreases n
  {
    && (n.BinaryExpr? ==> IsOperand(n.lhs) && IsOperand(n.rhs))
    && forall i | 0 <= i < |n.Children()| :: LooksUpAll(n.Children()[i])
  }

  predicate Tame(n: ASTNode) {
    !HasIndex(n) && LooksUpAll(n)
  }

  lemma TameChild(n: ASTNode, i: nat)
    requires Tame(n) && i < |n.Children()|
    ensures Tame(n.Children()[i])
  {
  }

  lemma {:induction false} TypesAgree(g: Context, h: Context, n: ASTNode, id: NodeId)
    requires SameProgram(g, h) && Plain(n) && Tame(n)
    ensures TypeOf(g, n, id) == TypeOf(h, n, id)
    decreases n
  {
    forall i | 0 <= i < |n.Children()| ensures TypeOf(g, n.Children()[i], id + [i]) == TypeOf(h, n.Children()[i], id + [i]) {
      PlainChild(n, i);
      TameChild(n, i);
      TypesAgree(g, h, n.Children()[i], id + [i]);
    }
    if n.ArrayExpr? && n.elems != [] {
      forall i | 0 <= i < |n.elems| ensures ValueType(g, n.elems[i], id + [i]) == ValueType(h, n.elems[i], id + [i]) {
        assert n.Children()[i] == n.elems[i];
        PlainChild(n, i);
        ValueOfPlain(g, n.elems[i], id + [i]);
        ValueOfPlain(h, n.elems[i], id + [i]);
      }
      ArrayTypeOf(g, n, id);
      ArrayTypeOf(h, n, id);
      hide TypeOf, ValueType;
    } else if n.BinaryExpr? {
      assert n.Children()[0] == n.lhs && n.Children()[1] == n.rhs;
      TameOperands(n);
      OperationTypeOf(g, n, id);
      OperationTypeOf(h, n, id);
      hide TypeOf;
    } else if n.IndexedExpr? {
      assert false by { TameHasNoIndex(n); }
    }
  }

  lemma TameOperands(n: ASTNode)
    requires Tame(n) && n.BinaryExpr?
    ensures IsOperand(n.lhs) && IsOperand(n.rhs)
  {
  }

  lemma TameHasNoIndex(n: ASTNode)
    requires Tame(n)
    ensures !n.IndexedExpr?
  {
  }

  // ---------- index expressions ----------

  /** The rules but for what an index expression has the type of. */
  function WithArrays(g: Context, whole: bool): Context {
    g.(quirks := g.quirks.(wholeArrays := whole))
  }

  /** Index expressions always get the wrong type, and what they are in does: the two rules agree
      on an expression exactly when it has no index expression in it, or no type by either. */
  lemma {:induction false} IndexTypesDiffer(g: Context, n: ASTNode, id: NodeId)
    requires Plain(n) && LooksUpAll(n)
    ensures TypeOf(WithArrays(g, true), n, id) == TypeOf(WithArrays(g, false), n, id)
       <==> !HasIndex(n) || (TypeOf(WithArrays(g, true), n, id).None? && TypeOf(WithArrays(g, false), n, id).None?)
    decreases n
  {
    var whole, element := WithArrays(g, true), WithArrays(g, false);
    if !HasIndex(n) {
      TypesAgree(whole, element, n, id);
    } else if n.ArrayExpr? {
      var i :| 0 <= i < |n.Children()| && HasIndex(n.Children()[i]);
      PlainChild(n, i);
      IndexTypesDiffer(g, n.elems[i], id + [i]);
      ArrayTypesDiffer(g, n, i, id);
    } else if n.IndexedExpr? {
      hide TypeOf;
      IndexedTypes(g, n, id);
    } else {
      OperandsHaveNoIndex(n);
    }
  }

  /** Operands that are looked up have no index expressions in them. */
  lemma {:induction false} OperandsHaveNoIndex(n: ASTNode)
    requires Plain(n) && LooksUpAll(n) && IsOperand(n)
    ensures !HasIndex(n)
    decreases n
  {
    if n.BinaryExpr? {
      assert n.Children() == [n.lhs, n.rhs] && n.Children()[0] == n.lhs && n.Children()[1] == n.rhs;
      OperandsHaveNoIndex(n.lhs);
      OperandsHaveNoIndex(n.rhs);
    }
  }

  lemma ArrayTypesDiffer(g: Context, n: ASTNode, i: nat, id: NodeId)
    requires n.ArrayExpr? && i < |n.elems| && !n.elems[i].CallExpr?
    requires var a, b := TypeOf(WithArrays(g, true), n.elems[i], id + [i]), TypeOf(WithArrays(g, false), n.elems[i], id + [i]);
             a == b ==> a.None? && b.None?
    ensures var a, b := TypeOf(WithArrays(g, true), n, id), TypeOf(WithArrays(g, false), n, id); a == b ==> a.None? && b.None?
  {
    var whole, element := WithArrays(g, true), WithArrays(g, false);
    ArrayTypeOf(whole, n, id);
    ArrayTypeOf(element, n, id);
    ValueOfPlain(whole, n.elems[i], id + [i]);
    ValueOfPlain(element, n.elems[i], id + [i]);
    hide TypeOf, ValueType;
  }

  /** With the type of the whole array an index expression never has the type it should have. */
  lemma IndexedTypes(g: Context, n: ASTNode, id: NodeId)
    requires n.IndexedExpr? && n.ident.IdentifierExpr?
    ensures var a, b := TypeOf(WithArrays(g, true), n, id), TypeOf(WithArrays(g, false), n, id); a == b ==> a.None? && b.None?
  {
    var whole, element := WithArrays(g, true), WithArrays(g, false);
    assert TypeOf(whole, n.ident, id + [0]) == TypeOf(element, n.ident, id + [0]);
    IndexedTypeOf(whole, n, id);
    IndexedTypeOf(element, n, id);
    hide TypeOf, MayHave;
  }

  /** Where a type is asked for, an index expression is mistaken exactly when its index is a number and
      its array has that type or elements of it. */
  lemma IndexedRightExactly(g: Context, n: ASTNode, id: NodeId, index: Type, ty: Type)
    requires n.IndexedExpr? && Plain(n)
    requires TypeOf(WithArrays(g, true), n.index, id + [1]) == TypeOf(WithArrays(g, false), n.index, id + [1]) == Some(index)
    ensures var declared := TypeOfUse(g.decls, g.uses, id + [0]);
            (index == NUMBER && declared.Some? && (declared == Some(ty) || ElementType(declared.value) == Some(ty))) <==>
              (HasType(WithArrays(g, true), n, id, ty) <==> !HasType(WithArrays(g, false), n, id, ty))
  {
    IndexedHasType(WithArrays(g, true), n, id, index, ty);
    IndexedHasType(WithArrays(g, false), n, id, index, ty);
    hide HasType, TypeOf;
  }

  lemma IndexedHasType(g: Context, n: ASTNode, id: NodeId, index: Type, ty: Type)
    requires n.IndexedExpr? && Plain(n) && TypeOf(g, n.index, id + [1]) == Some(index)
    ensures HasType(g, n, id, ty) <==> index == NUMBER && IndexedType(g, TypeOfUse(g.decls, g.uses, id + [0])) == Some(ty)
  {
    assert TypeOf(g, n.ident, id + [0]) == TypeOfUse(g.decls, g.uses, id + [0]);
    PlainIsUnambiguous(g, n, id);
    PlainIsSimple(n.index);
    IndexedTypeOf(g, n, id);
    assert MayHave(g, n.index, id + [1], NUMBER) <==> index == NUMBER;
    assert MayHave(g, n, id, ty) <==> TypeOf(g, n, id) == Some(ty);
    hide TypeOf, Inner, MayHave;
  }

  // ---------- calls in arrays ----------

  /** The rules but for whether calls have types as elements and operands. */
  function WithCalls(g: Context, typed: bool): Context {
    g.(quirks := g.quirks.(callTypes := typed))
  }

  /** An array of calls and of parts without calls gets the type it should have exactly when it has
      no call for an element, or should have no type. */
  lemma ElementsRightExactly(g: Context, n: ASTNode, id: NodeId)
    requires n.ArrayExpr? && forall i | 0 <= i < |n.elems| :: n.elems[i].CallExpr? || (Plain(n.elems[i]) && Tame(n.elems[i]))
    ensures TypeOf(WithCalls(g, false), n, id) == TypeOf(WithCalls(g, true), n, id)
       <==> (forall i | 0 <= i < |n.elems| :: !n.elems[i].CallExpr?) || TypeOf(WithCalls(g, true), n, id).None?
  {
    var without, with := WithCalls(g, false), WithCalls(g, true);
    if n.elems != [] {
      forall i | 0 <= i < |n.elems|
        ensures if n.elems[i].CallExpr? then ValueType(without, n.elems[i], id + [i]).None?
                else ValueType(without, n.elems[i], id + [i]) == ValueType(with, n.elems[i], id + [i])
      {
        if !n.elems[i].CallExpr? {
          TypesAgree(without, with, n.elems[i], id + [i]);
          ValueOfPlain(without, n.elems[i], id + [i]);
          ValueOfPlain(with, n.elems[i], id + [i]);
        }
      }
      ArrayTypeOf(without, n, id);
      ArrayTypeOf(with, n, id);
      hide TypeOf, ValueType, Plain, Tame;
    }
  }

  // ---------- operands ----------

  /** Both operands may have the same type. */
  ghost predicate OperandsAgree(g: Context, n: ASTNode, id: NodeId)
    requires n.BinaryExpr?
  {
    exists ty :: MayHave(g, n.lhs, id + [0], ty) && MayHave(g, n.rhs, id + [1], ty)
  }

  /** An operand that was visited without finding anything wrong: a call, or typed. */
  ghost predicate Known(g: Context, n: ASTNode, id: NodeId, st: State) {
    if n.CallExpr? then exists ty :: MayHave(g, n, id, ty)
    else Simple(n) && HasItsType(g, n, id, st) && (n.IdentifierExpr? ==> SameUse(g, st, id))
  }

  lemma KnownOperand(g: Context, syms: Symbols, n: ASTNode, id: NodeId, st: State)
    requires Known(g, n, id, st) && g.decls == DeclarationsIn(syms.table)
    ensures OperandType(syms, n, id, st) == if IsOperand(n) then TypeOf(g, n, id) else Some(syms.noise(id))
    ensures !n.Null? && (!n.CallExpr? ==> TypeOf(g, n, id).Some?)
  {
    if !n.CallExpr? {
      SimpleIsNoStmt(n);
      ReadsDeclarations(syms.table);
      if n.IdentifierExpr? {
        assert TypeOf(g, n, id) == TypeOfUse(g.decls, g.uses, id);
      } else if n.BooleanExpr? {
        assert TypeOf(g, n, id) == Some(BOOL);
      } else if n.NumberExpr? {
        assert TypeOf(g, n, id) == Some(NUMBER);
      }
    }
    hide TypeOf, MayHave, Simple;
  }

  lemma KnownIsTyped(g: Context, n: ASTNode, id: NodeId, st: State)
    requires Known(g, n, id, st)
    ensures IsOperand(n) ==> TypeOf(g, n, id).Some?
  {
    hide TypeOf;
  }

  /** What an operation on two visited operands is found to be, given what the unset variables for
      their types hold. */
  lemma BinaryCompares(g: Context, syms: Symbols, n: ASTNode, id: NodeId, st: State)
    requires n.BinaryExpr? && (n.op == ASSIGNMENT ==> n.lhs.IdentifierExpr?) && !st.failed
    requires g.decls == DeclarationsIn(syms.table)
    requires Known(g, n.lhs, id + [0], st) && Known(g, n.rhs, id + [1], st)
    ensures var left := if IsOperand(n.lhs) then TypeOf(g, n.lhs, id + [0]) else Some(syms.noise(id + [0]));
            var right := if IsOperand(n.rhs) then TypeOf(g, n.rhs, id + [1]) else Some(syms.noise(id + [1]));
            Worse(st, HandleBinary(syms, n, id, st)) <==> left != right
  {
    KnownOperand(g, syms, n.lhs, id + [0], st);
    KnownOperand(g, syms, n.rhs, id + [1], st);
    hide OperandType, TypeOf, Known;
  }

  /** Whatever the unset variables hold, the operation is judged by the types of its operands:
      exactly when the types of both are looked up. Operands that are calls, strings, arrays or
      index expressions are not. */
  lemma BinaryRightExactly(g: Context, table: Table, order: seq<NodeId>, n: ASTNode, id: NodeId, st: State)
    requires g.decls == DeclarationsIn(table)
    requires n.BinaryExpr? && (n.op == ASSIGNMENT ==> n.lhs.IdentifierExpr?) && !st.failed
    requires Known(g, n.lhs, id + [0], st) && Known(g, n.rhs, id + [1], st)
    ensures (forall noise :: Worse(st, HandleBinary(Symbols(table, order, noise), n, id, st)) <==> !OperandsAgree(g, n, id))
       <==> IsOperand(n.lhs) && IsOperand(n.rhs)
  {
    hide HandleBinary, Known, OperandsAgree, TypeOf;
    if IsOperand(n.lhs) && IsOperand(n.rhs) {
      forall noise
        ensures Worse(st, HandleBinary(Symbols(table, order, noise), n, id, st)) <==> !OperandsAgree(g, n, id)
      {
        BinaryCompares(g, Symbols(table, order, noise), n, id, st);
        LookedUpAgree(g, n, id, st);
      }
    } else {
      var noise := Misleading(g, n, id, OperandsAgree(g, n, id));
      BinaryCompares(g, Symbols(table, order, noise), n, id, st);
      KnownIsTyped(g, n.lhs, id + [0], st);
      KnownIsTyped(g, n.rhs, id + [1], st);
      MisleadingMisleads(g, n, id, OperandsAgree(g, n, id));
      assert Worse(st, HandleBinary(Symbols(table, order, noise), n, id, st)) <==> OperandsAgree(g, n, id);
    }
  }

  lemma LookedUpAgree(g: Context, n: ASTNode, id: NodeId, st: State)
    requires n.BinaryExpr? && IsOperand(n.lhs) && IsOperand(n.rhs)
    requires Known(g, n.lhs, id + [0], st) && Known(g, n.rhs, id + [1], st)
    ensures OperandsAgree(g, n, id) <==> TypeOf(g, n.lhs, id + [0]) == TypeOf(g, n.rhs, id + [1])
  {
    var left := TypeOf(g, n.lhs, id + [0]);
    hide TypeOf;
    if left == TypeOf(g, n.rhs, id + [1]) {
      assert MayHave(g, n.lhs, id + [0], left.value) && MayHave(g, n.rhs, id + [1], left.value);
    } else {
      assert forall ty :: MayHave(g, n.lhs, id + [0], ty) ==> left == Some(ty);
    }
  }

  function Other(ty: Type): Type {
    if ty == BOOL then NUMBER else BOOL
  }

  /** What the unset variables may hold for the verdict to be wrong, given the right one. */
  ghost function Misleading(g: Context, n: ASTNode, id: NodeId, agree: bool): NodeId -> Type
    requires n.BinaryExpr?
  {
    var looked := if IsOperand(n.lhs) then TypeOf(g, n.lhs, id + [0]) else TypeOf(g, n.rhs, id + [1]);
    var base := if (IsOperand(n.lhs) || IsOperand(n.rhs)) && looked.Some? then looked.value else BOOL;
    var far := if IsOperand(n.lhs) then id + [1] else id + [0];
    k => if k == far && agree then Other(base) else base
  }

  lemma MisleadingMisleads(g: Context, n: ASTNode, id: NodeId, agree: bool)
    requires n.BinaryExpr? && !(IsOperand(n.lhs) && IsOperand(n.rhs))
    requires IsOperand(n.lhs) ==> TypeOf(g, n.lhs, id + [0]).Some?
    requires IsOperand(n.rhs) ==> TypeOf(g, n.rhs, id + [1]).Some?
    ensures var noise := Misleading(g, n, id, agree);
            var left := if IsOperand(n.lhs) then TypeOf(g, n.lhs, id + [0]) else Some(noise(id + [0]));
            var right := if IsOperand(n.rhs) then TypeOf(g, n.rhs, id + [1]) else Some(noise(id + [1]));
            left != right <==> agree
  {
    hide TypeOf;
    assert (id + [0])[|id|] == 0 && (id + [1])[|id|] == 1;
    var noise := Misleading(g, n, id, agree);
    if IsOperand(n.lhs) {
      var ty := TypeOf(g, n.lhs, id + [0]).value;
      assert noise(id + [1]) == if agree then Other(ty) else ty;
    } else if IsOperand(n.rhs) {
      var ty := TypeOf(g, n.rhs, id + [1]).value;
      assert noise(id + [0]) == if agree then Other(ty) else ty;
    } else {
      assert noise(id + [1]) == BOOL && noise(id + [0]) == if agree then NUMBER else BOOL;
    }
  }

  // ---------- sleeps ----------

  /** The count has no other type than that of numbers; a call may mean a function that returns a
      number exactly when it may mean no other. All this if its parts leave no choice. */
  ghost predicate CountsRight(g: Context, n: ASTNode, id: NodeId)
    requires n.SleepStmt?
  {
    var e, at := n.count, id + [0];
    Inner(g, e, at) ==>
      if e.CallExpr? then
        forall d | Means(g, e, at, d) :: Gives(g.decls, d, NUMBER) <==> forall d' | Means(g, e, at, d') :: d' == d
      else TypeOf(g, e, at).None? || TypeOf(g, e, at) == Some(NUMBER)
  }

  /** A sleep statement is judged as it should be exactly when its count is such. */
  lemma SleepRightExactly(g: Context, n: ASTNode, id: NodeId)
    requires n.SleepStmt?
    ensures (HasSomeType(g, n.count, id + [0]) <==> HasType(g, n.count, id + [0], NUMBER)) <==> CountsRight(g, n, id)
  {
    var e, at := n.count, id + [0];
    hide TypeOf, Means, Inner;
    if e.CallExpr? && Inner(g, e, at) {
      CountByMeaning(g, e, at);
      if d :| Means(g, e, at, d) && Gives(g.decls, d, NUMBER) {
        assert MayHave(g, e, at, NUMBER);
      }
    }
  }

  lemma CountByMeaning(g: Context, e: ASTNode, at: NodeId)
    requires e.CallExpr? && Inner(g, e, at)
    ensures HasSomeType(g, e, at) <==> Evaluates(g, e, at) && OneMeaning(g, e, at)
    ensures Evaluates(g, e, at) <==> exists d :: Means(g, e, at, d)
    ensures HasType(g, e, at, NUMBER) <==> exists d :: Means(g, e, at, d) && Gives(g.decls, d, NUMBER)
  {
    AmbiguityOfCall(g, e, at);
    hide MeansBy, Inner, OneMeaning, Unambiguous, Evaluates;
    if Evaluates(g, e, at) {
      var d := Meaning(g, e, at);
      assert Means(g, e, at, d);
    }
    if d :| Means(g, e, at, d) {
      MeansEvaluates(g, e, at, d);
    }
  }

  lemma AmbiguityOfCall(g: Context, e: ASTNode, at: NodeId)
    requires e.CallExpr?
    ensures Unambiguous(g, e, at) <==> OneMeaning(g, e, at) && Inner(g, e, at)
  {
    hide Means, Inner;
    if Unambiguous(g, e, at) {
      forall d, d' | Means(g, e, at, d) && Means(g, e, at, d') ensures d == d' {
      }
    }
  }

  ghost predicate OneMeaning(g: Context, e: ASTNode, at: NodeId)
    requires e.CallExpr?
  {
    forall d, d' :: Means(g, e, at, d) && Means(g, e, at, d') ==> d == d'
  }

  // ---------- calls ----------

  /** An expression whose parts that are no calls are such. */
  predicate TameExpr(n: ASTNode)
    decreases n
  {
    if n.CallExpr? then forall i | 0 <= i < |n.args| :: TameExpr(n.args[i]) else Plain(n) && Tame(n)
  }

  lemma {:induction false} MeaningsAgree(rule: Rule, g: Context, h: Context, n: ASTNode, id: NodeId)
    requires SameProgram(g, h) && n.CallExpr? && TameExpr(n)
    ensures forall d :: MeansBy(rule, g, n, id, d) <==> MeansBy(rule, h, n, id, d)
    decreases n
  {
    hide TypeOf, Plain, Tame;
    forall i | 0 <= i < |n.args| ensures ArgumentAgrees(rule, g, h, n, i, id) {
      assert TameExpr(n.args[i]);
      if n.args[i].CallExpr? {
        MeaningsAgree(rule, g, h, n.args[i], id + [i]);
      } else {
        TypesAgree(g, h, n.args[i], id + [i]);
      }
    }
    forall d ensures MeansBy(rule, g, n, id, d) <==> MeansBy(rule, h, n, id, d) {
      if IsFor(g.decls, n, d) {
        forall i | 0 <= i < |n.args| ensures Takes(rule, g, n, i, id, d) <==> Takes(rule, h, n, i, id, d) {
          assert ArgumentAgrees(rule, g, h, n, i, id);
        }
      }
    }
  }

  ghost predicate ArgumentAgrees(rule: Rule, g: Context, h: Context, n: ASTNode, i: nat, id: NodeId)
    requires n.CallExpr? && i < |n.args|
  {
    if n.args[i].CallExpr? then forall e :: MeansBy(rule, g, n.args[i], id + [i], e) <==> MeansBy(rule, h, n.args[i], id + [i], e)
    else TypeOf(g, n.args[i], id + [i]) == TypeOf(h, n.args[i], id + [i])
  }

  /** Calls mean the same under all rules if every function they may be for takes what it returns
      wherever it is given a call. */
  lemma CallsAgree(g: Context, h: Context, n: ASTNode, id: NodeId)
    requires SameProgram(g, h) && n.CallExpr? && TameExpr(n) && TakesItsResult(g.decls, n)
    ensures forall d :: Means(g, n, id, d) <==> Means(h, n, id, d)
  {
    RightAtEveryDepth(g, n, id);
    MeaningsAgree(h.quirks.calls, g, h, n, id);
    hide MeansBy;
    forall d ensures Means(g, n, id, d) <==> Means(h, n, id, d) {
      assert MeansBy(ByResult, g, n, id, d) <==> MeansBy(ByParameter, g, n, id, d);
      assert g.quirks.calls == ByResult || g.quirks.calls == ByParameter;
      assert h.quirks.calls == ByResult || h.quirks.calls == ByParameter;
      assert MeansBy(g.quirks.calls, g, n, id, d) <==> MeansBy(h.quirks.calls, g, n, id, d);
      assert MeansBy(h.quirks.calls, g, n, id, d) <==> MeansBy(h.quirks.calls, h, n, id, d);
    }
  }

  lemma {:induction false} AmbiguitiesAgree(g: Context, h: Context, n: ASTNode, id: NodeId)
    requires SameProgram(g, h) && TameExpr(n) && TakesItsResult(g.decls, n)
    ensures (Unambiguous(g, n, id) <==> Unambiguous(h, n, id)) && (Inner(g, n, id) <==> Inner(h, n, id))
    decreases n
  {
    hide Means, Plain, Tame;
    if n.CallExpr? {
      CallsAgree(g, h, n, id);
      assert n.Children() == n.args;
      forall i | 0 <= i < |n.args| ensures Unambiguous(g, n.args[i], id + [i]) <==> Unambiguous(h, n.args[i], id + [i]) {
        assert TameExpr(n.args[i]) && (n.args[i].CallExpr? ==> TakesItsResult(g.decls, n.args[i]));
        AmbiguitiesAgree(g, h, n.args[i], id + [i]);
      }
    } else {
      PlainIsUnambiguous(g, n, id);
      PlainIsUnambiguous(h, n, id);
    }
  }

  /** An expression for which it does not matter which rules are used. */
  ghost predicate Unaffected(g: Context, n: ASTNode) {
    TameExpr(n) && TakesItsResult(g.decls, n)
  }

  lemma ExpressionsAgree(g: Context, h: Context, n: ASTNode, id: NodeId)
    requires SameProgram(g, h) && Unaffected(g, n)
    ensures HasSomeType(g, n, id) <==> HasSomeType(h, n, id)
    ensures forall ty :: HasType(g, n, id, ty) <==> HasType(h, n, id, ty)
  {
    AmbiguitiesAgree(g, h, n, id);
    if n.CallExpr? {
      CallsAgree(g, h, n, id);
      hide Means, Unambiguous, Inner, TameExpr, TakesItsResult;
      assert Evaluates(g, n, id) <==> Evaluates(h, n, id);
      assert forall ty :: MayHave(g, n, id, ty) <==> MayHave(h, n, id, ty);
    } else {
      TypesAgree(g, h, n, id);
      hide TypeOf, Unambiguous, Inner;
    }
  }

  // ---------- whole programs ----------

  /** A program, declaration or statement for which it does not matter which rules are used. */
  ghost predicate Ordinary(g: Context, n: ASTNode, id: NodeId)
    decreases n
  {
    match n
    case ProgramDecl(decls) => forall i | 0 <= i < |decls| :: Ordinary(g, decls[i], id + [i])
    case FunctionDecl(_, _, _, body, _) => Ordinary(g, body, id + [1])
    case VarDecl(_, _, _, _, init, _) => init.Null? || Unaffected(g, init)
    case CompoundStmt(stmts) => forall i | 0 <= i < |stmts| :: Ordinary(g, stmts[i], id + [i])
    case IfStmt(cond, body, _) => Unaffected(g, cond) && Ordinary(g, body, id + [1])
    case WhileStmt(cond, body, _) => Unaffected(g, cond) && Ordinary(g, body, id + [1])
    case PrintStmt(message, _) => message.Null? || Unaffected(g, message)
    case ReturnStmt(result, _) => result.Null? || Unaffected(g, result)
    case ScanStmt(input, _) => Unaffected(g, input)
    case SleepStmt(count, _) => Unaffected(g, count) && CountsRight(g, n, id)
    case SpawnExpr(call, _) => Unaffected(g, call)
    case SyncStmt(_) => true
    case _ => IsMissing(n) || Unaffected(g, n)
  }

  lemma InitsAgree(g: Context, h: Context, n: ASTNode, id: NodeId)
    requires SameProgram(g, h) && n.VarDecl? && (n.init.Null? || Unaffected(g, n.init))
    ensures GoodInit(g, n, id) <==> GoodInit(h, n, id)
  {
    if !n.init.Null? {
      ExpressionsAgree(g, h, n.init, id + [0]);
      assert !n.init.IndexedExpr?;
      hide HasType, Simple, Unaffected;
    }
  }

  lemma SleepsAgree(g: Context, h: Context, n: ASTNode, id: NodeId)
    requires SameProgram(g, h) && n.SleepStmt? && Unaffected(g, n.count) && CountsRight(g, n, id)
    ensures GoodSleep(g, n, id) <==> GoodSleep(h, n, id)
  {
    ExpressionsAgree(g, h, n.count, id + [0]);
    SleepRightExactly(g, n, id);
    hide HasType, HasSomeType, Simple, Unaffected, CountsRight;
  }

  lemma ReturnsAgree(g: Context, h: Context, n: ASTNode, id: NodeId, func: Option<NodeId>)
    requires SameProgram(g, h) && n.ReturnStmt? && (n.result.Null? || Unaffected(g, n.result))
    ensures GoodReturn(g, n, id, func) <==> GoodReturn(h, n, id, func)
  {
    if !n.result.Null? {
      ExpressionsAgree(g, h, n.result, id + [0]);
      hide HasType, Simple, Unaffected;
    }
  }

  lemma {:induction false} NodesAgree(g: Context, h: Context, n: ASTNode, id: NodeId, func: Option<NodeId>)
    requires SameProgram(g, h) && Checkable(n) && Ordinary(g, n, id)
    ensures WellTyped(g, n, id, func) <==> WellTyped(h, n, id, func)
    decreases n
  {
    hide HasType, HasSomeType, Simple, Unaffected, GoodInit, GoodSleep, GoodReturn;
    if n.ProgramDecl? {
      forall i | 0 <= i < |n.decls| ensures WellTyped(g, n.decls[i], id + [i], func) <==> WellTyped(h, n.decls[i], id + [i], func) {
        NodesAgree(g, h, n.decls[i], id + [i], func);
      }
    } else if n.CompoundStmt? {
      forall i | 0 <= i < |n.stmts| ensures WellTyped(g, n.stmts[i], id + [i], func) <==> WellTyped(h, n.stmts[i], id + [i], func) {
        NodesAgree(g, h, n.stmts[i], id + [i], func);
      }
    } else if n.FunctionDecl? {
      NodesAgree(g, h, n.body, id + [1], Some(id));
    } else if n.IfStmt? || n.WhileStmt? {
      ExpressionsAgree(g, h, n.cond, id + [0]);
      NodesAgree(g, h, n.body, id + [1], func);
    } else if n.VarDecl? {
      InitsAgree(g, h, n, id);
    } else if n.ReturnStmt? {
      ReturnsAgree(g, h, n, id, func);
    } else if n.SleepStmt? {
      SleepsAgree(g, h, n, id);
    } else if n.PrintStmt? {
      if !n.message.Null? {
        ExpressionsAgree(g, h, n.message, id + [0]);
      }
    } else if n.ScanStmt? {
      ExpressionsAgree(g, h, n.input, id + [0]);
    } else if n.SpawnExpr? {
      ExpressionsAgree(g, h, n.call, id + [0]);
    } else if !n.SyncStmt? && !IsMissing(n) {
      ExpressionsAgree(g, h, n, id);
    }
  }

  /** The type checker accepts an ordinary program exactly when it is well typed by the rules as
      intended, whatever unset variables hold. */
  lemma VerdictIsIntended(syms: Symbols, root: ASTNode, uses: map<NodeId, NodeId>)
    requires root.ProgramDecl? && Checkable(root) && syms.Valid() && Collected(syms.table)
    requires Ordinary(Context(DeclarationsIn(syms.table), uses, INTENDED), root, [])
    ensures var st := Checked(syms, root, uses);
            WellTyped(Context(DeclarationsIn(syms.table), uses, INTENDED), root, [], None) <==> !st.failed && st.errors == 0
  {
    NodesAgree(Context(DeclarationsIn(syms.table), uses, INTENDED), Context(DeclarationsIn(syms.table), uses, Coded(syms.noise)), root, [], None);
    VerdictIsTyping(syms, root, uses);
    hide Checked, WellTyped, Checkable;
  }
}
