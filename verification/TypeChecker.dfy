/** The type checker: a post-order traversal that types expressions and resolves calls. */
module TypeChecker {
  import opened Ast
  import opened LexicalScoping
  import opened SymbolTable
  import T = TypeChecking
  import Rules = TypingRules
  import Soundness = TypingSoundness
  import Verdict = TypingVerdict
  import Contents = TableDeclarations

  class TypeChecker {
    const mSymbolTable: SymbolTable
    const mOrder: seq<NodeId>  // in which iterating over the table meets its entries
    const mNoise: NodeId -> Type  // what the variable for an operand's type holds when it is not set
    var mErrorCount: nat
    var mCurrentFunc: Option<NodeId>
    var mNodeTypes: map<NodeId, Type>
    var mOverloadMap: map<NodeId, seq<NodeId>>
    var mFailed: bool  // an assertion, a lookup or a dereference has failed

    ghost function State(): T.State
      reads this, mSymbolTable
    {
      T.State(mNodeTypes, mOverloadMap, mSymbolTable.mUseDefs, mCurrentFunc, mErrorCount, mFailed)
    }

    ghost function Syms(): T.Symbols
      reads mSymbolTable`mTable
    {
      T.Symbols(mSymbolTable.mTable, mOrder, mNoise)
    }

    constructor (symTab: SymbolTable, order: seq<NodeId>, noise: NodeId -> Type)
      ensures mSymbolTable == symTab && mOrder == order && mNoise == noise && mCurrentFunc.None? && !mFailed
    {
      mSymbolTable, mOrder, mNoise := symTab, order, noise;
      mErrorCount, mCurrentFunc, mFailed := 0, None, false;
      mNodeTypes, mOverloadMap := map[], map[];
    }

    /** Counts the typing errors of a program. On the table of a collected program there are
        none, and the run ends, exactly when the program is well typed; all types and calls are
        then recorded. */
    method Run(root: ASTNode) returns (errors: nat)
      requires mCurrentFunc.None? && !mFailed
      modifies this, mSymbolTable`mUseDefs
      ensures State() == T.Checked(Syms(), root, old(mSymbolTable.mUseDefs)) && errors == mErrorCount
      ensures var g := Rules.Context(Contents.DeclarationsIn(mSymbolTable.mTable), old(mSymbolTable.mUseDefs), Rules.Coded(mNoise));
              root.ProgramDecl? && Rules.Checkable(root) && Syms().Valid() && Collected(mSymbolTable.mTable) ==>
                && (Rules.WellTyped(g, root, [], None) <==> !mFailed && errors == 0)
                && (Rules.WellTyped(g, root, [], None) ==>
                     Soundness.Annotated(g, root, [], None, State().(overloads := map[])))
    {
      hide T.Visit, T.Finished, Rules.Checkable, Rules.WellTyped, Soundness.Annotated;
      mErrorCount := 0;
      mNodeTypes, mOverloadMap := map[], map[];
      VisitPostOrder(root, []);
      if !mFailed {
        ResolveRemaining();
      }
      if root.ProgramDecl? && Rules.Checkable(root) && Syms().Valid() && Collected(mSymbolTable.mTable) {
        Verdict.VerdictIsTyping(Syms(), root, old(mSymbolTable.mUseDefs));
      }
      return mErrorCount;
    }

    /** A call with one candidate left is bound to it; several are an error. */
    method ResolveRemaining()
      modifies `mErrorCount, mSymbolTable`mUseDefs
      ensures State() == T.Finished(Syms(), old(State()))
    {
      hide Entry, Progress, T.LastBinding, T.Ambiguous, T.Finished;
      ghost var start, syms := State(), Syms();
      var todo := mOverloadMap.Keys;
      NoProgress(syms, start);
      while todo != {}
        invariant todo <= mOverloadMap.Keys
        invariant Progress(syms, start, mOverloadMap.Keys - todo, mErrorCount, mSymbolTable.mUseDefs)
        decreases |todo|
      {
        ghost var done, errors, uses := mOverloadMap.Keys - todo, mErrorCount, mSymbolTable.mUseDefs;
        var call :| call in todo;
        ResolveOne(call, start);
        OneMore(syms, start, done, call, errors, uses);
        todo := todo - {call};
        assert mOverloadMap.Keys - todo == done + {call};
      }
      AllDone(syms, start, mErrorCount, mSymbolTable.mUseDefs);
    }

    method ResolveOne(call: NodeId, ghost start: T.State)
      requires call in mOverloadMap && start.overloads == mOverloadMap
      modifies `mErrorCount, mSymbolTable`mUseDefs
      ensures mErrorCount == old(mErrorCount) + if call in T.Ambiguous(mOverloadMap) then 1 else 0
      ensures mSymbolTable.mUseDefs == WithBinding(Syms(), start, call, old(mSymbolTable.mUseDefs))
    {
      hide Entry;
      var candidates := mOverloadMap[call];
      if |candidates| == 1 {
        if candidates[0] in mSymbolTable.mTable {
          var _ := mSymbolTable.AddFunctionUse(call, mSymbolTable.mTable[candidates[0]], mOrder);
        }
      } else if candidates != [] {
        mErrorCount := mErrorCount + 1;
      }
    }

    static function WithBinding(syms: T.Symbols, start: T.State, call: NodeId,
                                uses: map<NodeId, NodeId>): map<NodeId, NodeId>
    {
      match T.LastBinding(syms, call, start)
      case Some(d) => uses[call := d]
      case None => uses
    }

    /** The calls in `done` have been gone through. */
    static ghost predicate Progress(syms: T.Symbols, start: T.State, done: set<NodeId>,
                                    errors: nat, uses: map<NodeId, NodeId>)
    {
      errors == start.errors + |T.Ambiguous(start.overloads) * done| && uses == T.Rebound(syms, start, done)
    }

    static lemma NoProgress(syms: T.Symbols, start: T.State)
      ensures Progress(syms, start, start.overloads.Keys - start.overloads.Keys, start.errors, start.uses)
    {
      hide T.Ambiguous;
      assert start.overloads.Keys - start.overloads.Keys == {};
      assert T.Ambiguous(start.overloads) * {} == {};
    }

    static lemma OneMore(syms: T.Symbols, start: T.State, done: set<NodeId>, call: NodeId,
                         errors: nat, uses: map<NodeId, NodeId>)
      requires Progress(syms, start, done, errors, uses) && call !in done
      ensures Progress(syms, start, done + {call},
                       errors + if call in T.Ambiguous(start.overloads) then 1 else 0,
                       WithBinding(syms, start, call, uses))
    {
      hide T.Ambiguous, T.Rebound, WithBinding;
      CountOneMore(T.Ambiguous(start.overloads), done, call);
      OneRebound(syms, start, done, call);
    }

    static lemma CountOneMore(s: set<NodeId>, done: set<NodeId>, call: NodeId)
      requires call !in done
      ensures |s * (done + {call})| == |s * done| + if call in s then 1 else 0
    {
      assert s * (done + {call}) == if call in s then s * done + {call} else s * done;
    }

    static lemma OneRebound(syms: T.Symbols, start: T.State, done: set<NodeId>, call: NodeId)
      ensures T.Rebound(syms, start, done + {call}) == WithBinding(syms, start, call, T.Rebound(syms, start, done))
    {
      hide T.LastBinding;
    }

    static lemma AllDone(syms: T.Symbols, start: T.State, errors: nat, uses: map<NodeId, NodeId>)
      requires Progress(syms, start, start.overloads.Keys - {}, errors, uses)
      ensures start.(errors := errors, uses := uses) == T.Finished(syms, start)
    {
      assert start.overloads.Keys - {} == start.overloads.Keys;
      assert T.Ambiguous(start.overloads) * start.overloads.Keys == T.Ambiguous(start.overloads);
    }

    // ---------- the traversal ----------

    method VisitPostOrder(root: ASTNode, id: NodeId)
      modifies this, mSymbolTable`mUseDefs
      ensures State() == T.Visit(Syms(), root, id, old(State()))
      decreases root, 1
    {
      hide T.Handle, ASTNode.Children;
      if root.Null? {
        return;
      }
      if root.FunctionDecl? {
        mCurrentFunc := Some(id);
      }
      ghost var target := T.VisitFrom(Syms(), root, 0, id, State());
      var children := root.Children();
      var i := 0;
      while i < |children|
        invariant 0 <= i <= |children| && T.VisitFrom(Syms(), root, i, id, State()) == target
      {
        VisitPostOrder(children[i], id + [i]);
        i := i + 1;
      }
      assert State() == target;
      DispatchNode(root, id);
      if root.FunctionDecl? {
        mCurrentFunc := None;
      }
    }

    method DispatchNode(node: ASTNode, id: NodeId)
      modifies `mErrorCount, `mNodeTypes, `mOverloadMap, `mFailed, mSymbolTable`mUseDefs
      ensures State() == T.Handle(Syms(), node, id, old(State()))
    {
      hide T.HandleVar, T.HandleArray, T.HandleBinary, T.HandleCall, T.HandleIdentifier;
      hide T.HandleIndexed, T.HandleReturn, T.HandleSpawn, T.Expect;
      if mFailed {
        return;
      }
      if node.VarDecl? {
        HandleVarDecl(node, id);
      } else if node.ArrayExpr? {
        HandleArrayExpr(node, id);
      } else if node.BinaryExpr? {
        HandleBinaryExpr(node, id);
      } else if node.BooleanExpr? {
        mNodeTypes := mNodeTypes[id := BOOL];
      } else if node.CallExpr? {
        HandleCallExpr(node, id);
      } else if node.IdentifierExpr? {
        HandleIdentifierExpr(id);
      } else if node.IndexedExpr? {
        HandleIndexedExpr(node, id);
      } else if node.NumberExpr? {
        mNodeTypes := mNodeTypes[id := NUMBER];
      } else if node.SpawnExpr? {
        HandleSpawnExpr(node);
      } else if node.StringExpr? {
        mNodeTypes := mNodeTypes[id := STRING];
      } else if node.IfStmt? || node.WhileStmt? {
        Expect(node.cond, id + [0], BOOL);
      } else if node.ReturnStmt? {
        HandleReturnStmt(node, id);
      }
    }

    // ---------- checking an expression ----------

    method CheckExprEvaluateToType(expr: ASTNode, id: NodeId, ty: Type) returns (good: bool)
      modifies `mErrorCount, `mNodeTypes, `mOverloadMap, `mFailed, mSymbolTable`mUseDefs
      ensures (good, State()) == T.Check(Syms(), expr, id, ty, old(State()))
      decreases expr, 1
    {
      CheckCases(Syms(), expr, id, ty, State());
      hide T.Check, T.CheckCall, T.CheckOperands, T.Grows;
      if mFailed || expr.Null? {
        mFailed := true;
        good := false;
      } else if expr.CallExpr? {
        good := CheckCall(id, ty);
      } else if id in mNodeTypes {
        good := mNodeTypes[id] == ty;
      } else if expr.BinaryExpr? {
        good := CheckOperands(expr, id, ty);
      } else {
        mFailed := true;
        good := false;
      }
    }

    static lemma CheckCases(syms: T.Symbols, n: ASTNode, id: NodeId, ty: Type, st: T.State)
      ensures T.Check(syms, n, id, ty, st)
           == if st.failed || n.Null? then (false, st.Fail())
              else if n.CallExpr? then T.CheckCall(syms, id, ty, st)
              else if id in st.types then (st.types[id] == ty, st)
              else if n.BinaryExpr? then T.CheckOperands(syms, n, id, ty, st)
              else (false, st.Fail())
    {
      hide T.CheckCall, T.CheckOperands;
    }

    /** Forces the evaluation of a binary expression through its operands. */
    method CheckOperands(expr: ASTNode, id: NodeId, ty: Type) returns (good: bool)
      requires expr.BinaryExpr?
      modifies `mErrorCount, `mNodeTypes, `mOverloadMap, `mFailed, mSymbolTable`mUseDefs
      ensures (good, State()) == T.CheckOperands(Syms(), expr, id, ty, old(State()))
      decreases expr, 0
    {
      hide T.Check;
      var typeForEval := ty;
      if expr.op == GREATER_THAN || expr.op == LESS_THAN {
        typeForEval := NUMBER;
      }
      var left := CheckExprEvaluateToType(expr.lhs, id + [0], typeForEval);
      var right := CheckExprEvaluateToType(expr.rhs, id + [1], typeForEval);
      good := left && right;
      if good {
        mNodeTypes := mNodeTypes[id := ty];
      }
    }

    /** Completes the resolution of a call: the first candidate that returns the type. */
    method CheckCall(id: NodeId, ty: Type) returns (good: bool)
      modifies `mErrorCount, `mOverloadMap, mSymbolTable`mUseDefs
      ensures (good, State()) == T.CheckCall(Syms(), id, ty, old(State()))
    {
      hide Entry;
      if id !in mOverloadMap || mOverloadMap[id] == [] {
        return false;
      }
      var overloadSet, table := mOverloadMap[id], mSymbolTable.mTable;
      for i := 0 to |overloadSet|
        invariant T.FirstReturning(table, overloadSet, ty) == T.FirstReturning(table, overloadSet[i..], ty)
        invariant State() == old(State())
      {
        if T.Returns(table, overloadSet[i], ty) {
          var _ := mSymbolTable.AddFunctionUse(id, table[overloadSet[i]], mOrder);
          mOverloadMap := mOverloadMap - {id};
          return true;
        }
      }
      mErrorCount := mErrorCount + 1;
      return false;
    }

    /** A failed check is an error. */
    method Expect(expr: ASTNode, id: NodeId, ty: Type)
      modifies `mErrorCount, `mNodeTypes, `mOverloadMap, `mFailed, mSymbolTable`mUseDefs
      ensures State() == T.Expect(Syms(), expr, id, ty, old(State()))
    {
      hide T.Check, T.CheckCall, T.CheckOperands, Syms, T.Grows;
      var good := CheckExprEvaluateToType(expr, id, ty);
      if !good {
        mErrorCount := mErrorCount + 1;
      }
    }

    // ---------- handlers ----------

    method HandleVarDecl(node: ASTNode, id: NodeId)
      requires node.VarDecl?
      modifies `mErrorCount, `mNodeTypes, `mOverloadMap, `mFailed, mSymbolTable`mUseDefs
      ensures State() == T.HandleVar(Syms(), node, id, old(State()))
    {
      hide T.Check;
      if node.init.Null? {
        return;
      }
      if id !in mSymbolTable.mTable || !mSymbolTable.mTable[id].VariableSymbol? {
        mFailed := true;
        return;
      }
      var good := CheckExprEvaluateToType(node.init, id + [0], mSymbolTable.mTable[id].varType);
      if !good && T.IsReported(node.init) {
        mErrorCount := mErrorCount + 1;
      }
      if node.size != 0 && node.init.ArrayExpr? && node.size != |node.init.elems| {
        mErrorCount := mErrorCount + 1;
      }
    }

    /** The type of a node, which gets the default type if it has none. */
    method ReadType(id: NodeId) returns (ty: Type)
      modifies `mNodeTypes
      ensures State() == old(State()).Read(id) && ty == State().TypeAt(id) == old(State()).TypeAt(id)
    {
      if id !in mNodeTypes {
        mNodeTypes := mNodeTypes[id := ERROR];
      }
      assert mNodeTypes == old(mNodeTypes)[id := old(State()).TypeAt(id)];
      return mNodeTypes[id];
    }

    method HandleArrayExpr(node: ASTNode, id: NodeId)
      requires node.ArrayExpr?
      modifies `mErrorCount, `mNodeTypes, `mFailed
      ensures State() == T.HandleArray(node, id, old(State()))
    {
      if node.elems == [] {
        mErrorCount := mErrorCount + 1;
        return;
      }
      var arrayType := ReadType(id + [0]);
      ghost var target := T.HandleElements(node, 0, id, arrayType, State());
      for i := 0 to |node.elems|
        invariant T.HandleElements(node, i, id, arrayType, State()) == target
      {
        var elemType := ReadType(id + [i]);
        if elemType != arrayType {
          mErrorCount := mErrorCount + 1;
          return;
        }
      }
      if ArrayVersion(arrayType).Some? {
        mNodeTypes := mNodeTypes[id := ArrayVersion(arrayType).value];
      } else {
        mFailed := true;
      }
    }

    method HandleBinaryExpr(node: ASTNode, id: NodeId)
      requires node.BinaryExpr?
      modifies `mErrorCount, `mNodeTypes, `mFailed
      ensures State() == T.HandleBinary(Syms(), node, id, old(State()))
    {
      if node.lhs.Null? {
        mFailed := true;
        return;
      } else if !node.lhs.IdentifierExpr? && node.op == ASSIGNMENT {
        mErrorCount := mErrorCount + 1;
        return;
      }
      var left := OperandType(node.lhs, id + [0]);
      var right := OperandType(node.rhs, id + [1]);
      if left.None? || right.None? {
        mFailed := true;
      } else if left.value != right.value {
        mErrorCount := mErrorCount + 1;
      } else if node.op == EQUAL || node.op == GREATER_THAN || node.op == LESS_THAN {
        mNodeTypes := mNodeTypes[id := BOOL];
      } else {
        mNodeTypes := mNodeTypes[id := left.value];
      }
    }

    method OperandType(operand: ASTNode, id: NodeId) returns (ty: Option<Type>)
      ensures ty == T.OperandType(Syms(), operand, id, State())
    {
      if operand.BinaryExpr? {
        return if id in mNodeTypes then Some(mNodeTypes[id]) else None;
      } else if operand.BooleanExpr? {
        return Some(BOOL);
      } else if operand.NumberExpr? {
        return Some(NUMBER);
      } else if operand.IdentifierExpr? {
        return T.UseType(mSymbolTable.mTable, mSymbolTable.mUseDefs, id);
      } else {
        return if operand.Null? then None else Some(mNoise(id));
      }
    }

    method HandleCallExpr(node: ASTNode, id: NodeId)
      requires node.CallExpr?
      modifies `mErrorCount, `mNodeTypes, `mOverloadMap, `mFailed
      ensures State() == T.HandleCall(Syms(), node, id, old(State()))
    {
      hide T.WithArity, WithName, T.WithReturnOf;
      var table := mSymbolTable.mTable;
      var candidates := mSymbolTable.GetOverloadCandidates(node.name, mOrder);
      candidates := T.WithArity(table, candidates, |node.args|);
      if candidates == [] {
        mErrorCount := mErrorCount + 1;
        mOverloadMap := mOverloadMap[id := []];
        return;
      }
      ghost var target := T.HandleArguments(Syms(), node, 0, id, candidates, State());
      for i := 0 to |node.args|
        invariant T.HandleArguments(Syms(), node, i, id, candidates, State()) == target
      {
        if node.args[i].Null? {
          mFailed := true;
          return;
        } else if !node.args[i].CallExpr? {
          if candidates != [] {
            var ty := ReadType(id + [i]);
            candidates := T.WithParameter(table, candidates, i, ty);
          }
        } else {
          var overloadSet := if id + [i] in mOverloadMap then mOverloadMap[id + [i]] else [];
          if overloadSet == [] {
            mOverloadMap := mOverloadMap[id + [i] := []];
            return;
          }
          candidates := T.WithReturnOf(table, candidates, overloadSet);
        }
      }
      mOverloadMap := mOverloadMap[id := candidates];
      if candidates == [] {
        mErrorCount := mErrorCount + 1;
      }
    }

    method HandleIdentifierExpr(id: NodeId)
      modifies `mNodeTypes, `mFailed
      ensures State() == T.HandleIdentifier(Syms(), id, old(State()))
    {
      var ty := T.UseType(mSymbolTable.mTable, mSymbolTable.mUseDefs, id);
      if ty.Some? {
        mNodeTypes := mNodeTypes[id := ty.value];
      } else {
        mFailed := true;
      }
    }

    method HandleIndexedExpr(node: ASTNode, id: NodeId)
      requires node.IndexedExpr?
      modifies `mErrorCount, `mNodeTypes, `mOverloadMap, `mFailed, mSymbolTable`mUseDefs
      ensures State() == T.HandleIndexed(Syms(), node, id, old(State()))
    {
      hide T.Expect;
      Expect(node.index, id + [1], NUMBER);
      if id + [0] in mNodeTypes {
        mNodeTypes := mNodeTypes[id := mNodeTypes[id + [0]]];
      } else {
        mFailed := true;
      }
    }

    /** Only calls can be spawned. */
    method HandleSpawnExpr(node: ASTNode)
      requires node.SpawnExpr?
      modifies `mErrorCount, `mFailed
      ensures State() == T.HandleSpawn(node, old(State()))
    {
      if node.call.Null? {
        mFailed := true;
      } else if !node.call.CallExpr? {
        mErrorCount := mErrorCount + 1;
      }
    }

    method HandleReturnStmt(node: ASTNode, id: NodeId)
      requires node.ReturnStmt?
      modifies `mErrorCount, `mNodeTypes, `mOverloadMap, `mFailed, mSymbolTable`mUseDefs
      ensures State() == T.HandleReturn(Syms(), node, id, old(State()))
    {
      hide T.Expect;
      if mCurrentFunc.None? || mCurrentFunc.value !in mSymbolTable.mTable
         || !mSymbolTable.mTable[mCurrentFunc.value].FunctionSymbol?
      {
        mFailed := true;
        return;
      }
      var fnType := T.ReturnType(mSymbolTable.mTable[mCurrentFunc.value]);
      if fnType == VOID {
        if !node.result.Null? {
          mErrorCount := mErrorCount + 1;
        }
      } else {
        Expect(node.result, id + [0], fnType);
      }
    }
  }
}
