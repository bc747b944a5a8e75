/** A visit of a subtree leaves alone what the type checker has recorded for other nodes. */
module TypingFrames {
  import opened Ast
  import opened LexicalScoping
  import opened SymbolTable
  import opened TypeChecking

  /** Nothing recorded for the node at `k` differs. */
  ghost predicate AgreeAt(a: State, b: State, k: NodeId) {
    && (k in a.types <==> k in b.types) && (k in a.types ==> a.types[k] == b.types[k])
    && (k in a.overloads <==> k in b.overloads) && (k in a.overloads ==> a.overloads[k] == b.overloads[k])
    && (k in a.uses <==> k in b.uses) && (k in a.uses ==> a.uses[k] == b.uses[k])
  }

  /** The two states differ at the node `id` and below it at most. */
  ghost predicate Outside(a: State, b: State, id: NodeId) {
    forall k | !(id <= k) :: AgreeAt(a, b, k)
  }

  /** A node below the `i`-th or a later child. */
  predicate BelowFrom(id: NodeId, i: nat, k: NodeId) {
    id < k && k[|id|] >= i
  }

  ghost predicate OutsideFrom(a: State, b: State, id: NodeId, i: nat) {
    forall k | !BelowFrom(id, i, k) :: AgreeAt(a, b, k)
  }

  lemma BelowChild(id: NodeId, i: nat, k: NodeId)
    ensures id + [i] <= k <==> id < k && k[|id|] == i
  {
    if id < k && k[|id|] == i {
      assert k[..|id| + 1] == id + [i];
    }
  }

  lemma ChildrenAreApart(id: NodeId, i: nat, j: nat, k: NodeId)
    requires i != j && id + [i] <= k
    ensures !(id + [j] <= k) && id <= k && k != id
  {
    BelowChild(id, i, k);
    BelowChild(id, j, k);
  }

  lemma OutsideTrans(a: State, b: State, c: State, id: NodeId)
    requires Outside(a, b, id) && Outside(b, c, id)
    ensures Outside(a, c, id)
  {
    forall k | !(id <= k) ensures AgreeAt(a, c, k) {
      assert AgreeAt(a, b, k) && AgreeAt(b, c, k);
    }
  }

  lemma OutsideChild(a: State, b: State, id: NodeId, i: nat)
    requires Outside(a, b, id + [i])
    ensures Outside(a, b, id) && OutsideFrom(a, b, id, i)
  {
    forall k | !(id <= k) ensures AgreeAt(a, b, k) {
      BelowChild(id, i, k);
    }
    forall k | !BelowFrom(id, i, k) ensures AgreeAt(a, b, k) {
      BelowChild(id, i, k);
    }
  }

  lemma ErrorsFrame(a: State, b: State, id: NodeId)
    requires Outside(a, b, id)
    ensures Outside(a.Error(), b, id)
  {
    forall k | !(id <= k) ensures AgreeAt(a.Error(), b, k) {
      assert AgreeAt(a, b, k);
    }
  }

  lemma BindFrames(syms: Symbols, id: NodeId, d: NodeId, st: State)
    ensures Outside(BindCall(syms, id, d, st), st, id)
  {
  }

  lemma {:induction false} CheckFrames(syms: Symbols, n: ASTNode, id: NodeId, ty: Type, st: State)
    ensures Outside(Check(syms, n, id, ty, st).1, st, id)
    decreases n, 1
  {
    if st.failed || n.Null? {
    } else if n.CallExpr? {
      hide BindCall;
      if id in st.overloads && st.overloads[id] != [] {
        var d := FirstReturning(syms.table, st.overloads[id], ty);
        if d.Some? {
          var st' := st.(overloads := st.overloads - {id});
          BindFrames(syms, id, d.value, st');
          assert Outside(st', st, id);
          OutsideTrans(BindCall(syms, id, d.value, st'), st', st, id);
        }
      }
    } else if n.BinaryExpr? && id !in st.types {
      hide CheckOperands;
      OperandsFrame(syms, n, id, ty, st);
    }
  }

  lemma {:induction false} OperandsFrame(syms: Symbols, n: ASTNode, id: NodeId, ty: Type, st: State)
    requires n.BinaryExpr?
    ensures Outside(CheckOperands(syms, n, id, ty, st).1, st, id)
    decreases n, 0
  {
    hide Check;
    var operand := if Compares(n.op) then NUMBER else ty;
    var (left, mid) := Check(syms, n.lhs, id + [0], operand, st);
    var (right, after) := Check(syms, n.rhs, id + [1], operand, mid);
    CheckFrames(syms, n.lhs, id + [0], operand, st);
    CheckFrames(syms, n.rhs, id + [1], operand, mid);
    OutsideChild(mid, st, id, 0);
    OutsideChild(after, mid, id, 1);
    OutsideTrans(after, mid, st, id);
    assert Outside(after.Typed(id, ty), after, id);
    OutsideTrans(after.Typed(id, ty), after, st, id);
  }

  lemma ExpectFrames(syms: Symbols, n: ASTNode, id: NodeId, i: nat, ty: Type, st: State)
    ensures Outside(Expect(syms, n, id + [i], ty, st), st, id + [i])
    ensures Outside(Expect(syms, n, id + [i], ty, st), st, id)
  {
    hide Check;
    CheckFrames(syms, n, id + [i], ty, st);
    ErrorsFrame(Check(syms, n, id + [i], ty, st).1, st, id + [i]);
    OutsideChild(Expect(syms, n, id + [i], ty, st), st, id, i);
  }

  lemma ReadFrames(st: State, id: NodeId, i: nat)
    ensures Outside(st.Read(id + [i]), st, id)
  {
    assert Outside(st.Read(id + [i]), st, id + [i]);
    OutsideChild(st.Read(id + [i]), st, id, i);
  }

  lemma {:induction false} ElementsFrame(n: ASTNode, i: nat, id: NodeId, ty: Type, st: State)
    requires n.ArrayExpr? && i <= |n.elems|
    ensures Outside(HandleElements(n, i, id, ty, st), st, id)
    decreases |n.elems| - i
  {
    if i == |n.elems| {
    } else {
      var mid := st.Read(id + [i]);
      ReadFrames(st, id, i);
      ErrorsFrame(mid, st, id);
      if mid.TypeAt(id + [i]) == ty {
        ElementsFrame(n, i + 1, id, ty, mid);
        OutsideTrans(HandleElements(n, i + 1, id, ty, mid), mid, st, id);
      }
    }
  }

  lemma {:induction false} ArgumentsFrame(syms: Symbols, n: ASTNode, i: nat, id: NodeId, candidates: seq<NodeId>, st: State)
    requires n.CallExpr? && i <= |n.args|
    ensures Outside(HandleArguments(syms, n, i, id, candidates, st), st, id)
    decreases |n.args| - i
  {
    hide WithParameter, WithReturnOf;
    if i == |n.args| || n.args[i].Null? {
    } else if !n.args[i].CallExpr? {
      var mid := if candidates == [] then st else st.Read(id + [i]);
      var rest := WithParameter(syms.table, candidates, i, st.TypeAt(id + [i]));
      ReadFrames(st, id, i);
      ArgumentsFrame(syms, n, i + 1, id, rest, mid);
      OutsideTrans(HandleArguments(syms, n, i + 1, id, rest, mid), mid, st, id);
    } else if id + [i] !in st.overloads || st.overloads[id + [i]] == [] {
      var after := st.(overloads := st.overloads[id + [i] := []]);
      assert Outside(after, st, id + [i]);
      OutsideChild(after, st, id, i);
    } else {
      ArgumentsFrame(syms, n, i + 1, id, WithReturnOf(syms.table, candidates, st.overloads[id + [i]]), st);
    }
  }

  lemma VarFrames(syms: Symbols, n: ASTNode, id: NodeId, st: State)
    requires n.VarDecl?
    ensures Outside(HandleVar(syms, n, id, st), st, id)
  {
    hide Check;
    var ty := VariableType(syms.table, id);
    if !n.init.Null? && ty.Some? {
      var after := Check(syms, n.init, id + [0], ty.value, st).1;
      CheckFrames(syms, n.init, id + [0], ty.value, st);
      OutsideChild(after, st, id, 0);
      ErrorsFrame(after, st, id);
      ErrorsFrame(after.Error(), st, id);
    }
  }

  lemma ArrayFrames(n: ASTNode, id: NodeId, st: State)
    requires n.ArrayExpr?
    ensures Outside(HandleArray(n, id, st), st, id)
  {
    hide HandleElements;
    if n.elems != [] {
      var mid := st.Read(id + [0]);
      ReadFrames(st, id, 0);
      ElementsFrame(n, 0, id, st.TypeAt(id + [0]), mid);
      OutsideTrans(HandleElements(n, 0, id, st.TypeAt(id + [0]), mid), mid, st, id);
    }
  }

  lemma IndexedFrames(syms: Symbols, n: ASTNode, id: NodeId, st: State)
    requires n.IndexedExpr?
    ensures Outside(HandleIndexed(syms, n, id, st), st, id)
  {
    hide Expect;
    var mid := Expect(syms, n.index, id + [1], NUMBER, st);
    ExpectFrames(syms, n.index, id, 1, NUMBER, st);
    assert Outside(HandleIndexed(syms, n, id, st), mid, id);
    OutsideTrans(HandleIndexed(syms, n, id, st), mid, st, id);
  }

  lemma CallFrames(syms: Symbols, n: ASTNode, id: NodeId, st: State)
    requires n.CallExpr?
    ensures Outside(HandleCall(syms, n, id, st), st, id)
  {
    hide HandleArguments, WithName, WithArity;
    ArgumentsFrame(syms, n, 0, id, WithArity(syms.table, WithName(syms.table, syms.order, n.name), |n.args|), st);
  }

  lemma ReturnFrames(syms: Symbols, n: ASTNode, id: NodeId, st: State)
    requires n.ReturnStmt?
    ensures Outside(HandleReturn(syms, n, id, st), st, id)
  {
    hide Expect;
    if st.func.Some? && st.func.value in syms.table {
      ExpectFrames(syms, n.result, id, 0, ReturnType(syms.table[st.func.value]), st);
    }
  }

  lemma HandleFrames(syms: Symbols, n: ASTNode, id: NodeId, st: State)
    ensures Outside(Handle(syms, n, id, st), st, id)
  {
    hide Expect, HandleVar, HandleArray, HandleCall, HandleIndexed, HandleReturn, UseType;
    if st.failed {
    } else if n.VarDecl? {
      VarFrames(syms, n, id, st);
    } else if n.ArrayExpr? {
      ArrayFrames(n, id, st);
    } else if n.CallExpr? {
      CallFrames(syms, n, id, st);
    } else if n.IndexedExpr? {
      IndexedFrames(syms, n, id, st);
    } else if n.IfStmt? || n.WhileStmt? {
      ExpectFrames(syms, n.cond, id, 0, BOOL, st);
    } else if n.ReturnStmt? {
      ReturnFrames(syms, n, id, st);
    }
  }

  lemma {:induction false} VisitFrames(syms: Symbols, n: ASTNode, id: NodeId, st: State)
    ensures Outside(Visit(syms, n, id, st), st, id)
    decreases n, |n.Children()| + 1
  {
    hide Handle;
    if !n.Null? {
      var st1 := Enter(n, id, st);
      var st2 := VisitFrom(syms, n, 0, id, st1);
      var st3 := Handle(syms, n, id, st2);
      VisitFromFrames(syms, n, 0, id, st1);
      assert Outside(st2, st, id) by {
        forall k | !(id <= k) ensures AgreeAt(st2, st, k) {
          assert !BelowFrom(id, 0, k) && AgreeAt(st2, st1, k);
        }
      }
      HandleFrames(syms, n, id, st2);
      OutsideTrans(st3, st2, st, id);
      assert Outside(Leave(n, st3), st3, id);
      OutsideTrans(Leave(n, st3), st3, st, id);
    }
  }

  lemma {:induction false} VisitFromFrames(syms: Symbols, n: ASTNode, i: nat, id: NodeId, st: State)
    requires i <= |n.Children()|
    ensures OutsideFrom(VisitFrom(syms, n, i, id, st), st, id, i)
    decreases n, |n.Children()| - i
  {
    hide Visit;
    if i < |n.Children()| {
      var mid := Visit(syms, n.Children()[i], id + [i], st);
      var r := VisitFrom(syms, n, i + 1, id, mid);
      VisitFrames(syms, n.Children()[i], id + [i], st);
      OutsideChild(mid, st, id, i);
      VisitFromFrames(syms, n, i + 1, id, mid);
      forall k | !BelowFrom(id, i, k) ensures AgreeAt(r, st, k) {
        assert !BelowFrom(id, i + 1, k);
        assert AgreeAt(r, mid, k) && AgreeAt(mid, st, k);
      }
    }
  }
}
