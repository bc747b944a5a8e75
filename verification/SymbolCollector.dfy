/** The symbol collector: a pre-order traversal that fills the symbol table. */
module SymbolCollector {
  import opened Ast
  import opened LexicalScoping
  import opened SymbolTable
  import C = Collecting
  import Refinement = ScopingRefinement
  import Verdict = ScopingVerdict
  import Bindings = LateBindings
  import Late = LateVariables
  import ScopeEvents
  import Contents = TableContents
  import TableDeclarations

  class SymbolCollector {
    var mCurrentScopeID: nat
    var mErrorCount: nat
    var mCurrentScopesPath: seq<nat>
    const mSymbolTable: SymbolTable
    ghost var Uses: map<NodeId, set<NodeId>>  // the declarations each use could be bound to
    ghost var Misplaced: nat  // variables entered under another scope than the current one

    ghost function State(): C.State
      reads this, mSymbolTable
    {
      C.State(mSymbolTable.mTable, mCurrentScopeID, mCurrentScopesPath, mErrorCount, Uses, Misplaced)
    }

    /** Every recorded use is bound to a declaration it could have been bound to. */
    ghost predicate Valid()
      reads this, mSymbolTable
    {
      forall use :: use in Uses ==> use in mSymbolTable.mUseDefs && mSymbolTable.mUseDefs[use] in Uses[use]
    }

    constructor (symTab: SymbolTable)
      ensures Valid() && mSymbolTable == symTab && mCurrentScopesPath == [0]
    {
      mCurrentScopeID := 0;
      mErrorCount := 0;
      mCurrentScopesPath := [0];
      mSymbolTable := symTab;
      Uses, Misplaced := map[], 0;
    }

    /** Collects the symbols of a program and counts its scoping violations, by the rules as
        coded. There are none exactly when nothing is lexically wrong but late variables declared
        twice, and late variables are harmless. When variables come before blocks the rules are
        those of lexical scoping, and only then does every variable land in the scope that
        declares it. Every entry of the table tells what is declared at its node, and without an
        error nothing declared is missing. */
    method Run(root: ASTNode) returns (errors: nat)
      requires IsProgram(root) && mCurrentScopesPath == [0]
      modifies this, mSymbolTable
      ensures errors == CheckProgram(AsCoded, root).violations
      ensures forall use :: use in CheckProgram(AsCoded, root).uses ==>
        && use in mSymbolTable.mUseDefs && mSymbolTable.mUseDefs[use] in CheckProgram(AsCoded, root).uses[use]
      ensures var es := ScopeEvents.Events(root);
              && (errors == 0 <==> Late.OnlyLateTwice(es) && Late.NoneOnlyLate(es) && Late.NoneCollides(es))
              && (WellScoped(root) ==> (errors == 0 <==> Late.NoneOnlyLate(es) && Late.NoneCollides(es)))
              && ((forall k | 0 <= k < |es| :: !Bindings.NamesLate(es, k)) ==>
                   CheckProgram(AsCoded, root).uses == CheckProgram(Lexical, root).uses)
      ensures Misplaced == 0 <==> Verdict.VarsFirst(root)
      ensures Verdict.VarsFirst(root) ==> CheckProgram(AsCoded, root) == CheckProgram(Lexical, root)
      ensures Verdict.VarsFirst(root) ==> (errors == 0 <==> WellScoped(root))
      ensures mCurrentScopesPath == [0] && Collected(mSymbolTable.mTable)
      ensures Contents.Records(mSymbolTable.mTable, root)
      ensures errors == 0 ==>
                && Contents.RecordsAll(mSymbolTable.mTable, root)
                && TableDeclarations.DeclarationsIn(mSymbolTable.mTable) == Contents.DeclarationsOf(root)
    {
      hide C.Collect, CheckProgram, ScopeEvents.Events;
      hide Late.OnlyLateTwice, Late.NoneOnlyLate, Late.NoneCollides, Bindings.NamesLate;
      hide Contents.Records, Contents.RecordsAll, TableDeclarations.DeclarationsIn, Contents.DeclarationsOf;
      mErrorCount := 0;
      mSymbolTable.Clear();
      mCurrentScopeID := 0;
      Uses, Misplaced := map[], 0;
      Refinement.ProgramIsTyped(root);
      VisitPreOrder(root, []);
      Refinement.ProgramRefines(root);
      Refinement.CollectKeepsCollected(root, [], C.FRESH);
      Verdict.VerdictIsLexical(root);
      Late.VerdictIsRightExactly(root);
      Late.AcceptedExactly(root);
      Bindings.BindingsAreRightExactly(root);
      Contents.ProgramContents(root);
      return mErrorCount;
    }

    method VisitPreOrder(root: ASTNode, id: NodeId)
      requires Valid() && C.Typed(root)
      modifies this, mSymbolTable
      ensures Valid() && State() == C.Collect(root, id, old(State()))
      decreases root
    {
      hide ASTNode.Children, C.Handle, C.Typed;
      if root.Null? {
        return;
      }
      Prologue(root);
      DispatchNode(root, id);
      ghost var target := C.CollectFrom(root, 0, id, State());
      var children := root.Children();
      var i := 0;
      while i < |children|
        invariant 0 <= i <= |children| && Valid()
        invariant C.CollectFrom(root, i, id, State()) == target
      {
        Refinement.TypedChild(root, i);
        VisitPreOrder(children[i], id + [i]);
        i := i + 1;
      }
      assert State() == target;
      Epilogue(root);
    }

    method Prologue(node: ASTNode)
      modifies `mCurrentScopeID, `mCurrentScopesPath
      ensures State() == C.Enter(node, old(State()))
    {
      if node.CompoundStmt? {
        mCurrentScopeID := mCurrentScopeID + 1;
        mCurrentScopesPath := [mCurrentScopeID] + mCurrentScopesPath;
      }
    }

    method Epilogue(node: ASTNode)
      modifies `mCurrentScopesPath
      ensures State() == C.Leave(node, old(State()))
    {
      if node.CompoundStmt? && mCurrentScopesPath != [] {
        mCurrentScopesPath := mCurrentScopesPath[1..];
      }
    }

    method DispatchNode(node: ASTNode, id: NodeId)
      requires Valid() && C.Typed(node)
      modifies `mErrorCount, `Uses, `Misplaced, mSymbolTable
      ensures Valid() && State() == C.Handle(node, id, old(State()))
    {
      match node {
        case FunctionDecl(_, _, _, _, _) => HandleFunctionDecl(node, id);
        case ParamVarDecls(_) => HandleParamVarDecl(node, id);
        case VarDecl(_, _, _, _, _, _) => HandleVarDecl(node, id);
        case CallExpr(_, _, _) => HandleCallExpr(node);
        case IdentifierExpr(_, _) => HandleIdentifierExpr(node, id);
        case _ =>
      }
    }

    /** Adds a symbol, or counts an error. */
    method AddSymbol(id: NodeId, sym: Symbol)
      requires Valid()
      modifies `mErrorCount, mSymbolTable
      ensures Valid() && State() == C.Add(old(State()), id, sym)
    {
      var added := mSymbolTable.AddSymbol(id, sym);
      if !added {
        mErrorCount := mErrorCount + 1;
      }
    }

    method HandleFunctionDecl(node: ASTNode, id: NodeId)
      requires Valid() && C.Typed(node) && node.FunctionDecl?
      modifies `mErrorCount, mSymbolTable
      ensures Valid() && State() == C.Handle(node, id, old(State()))
    {
      assert C.Typed(node.Children()[0]);
      var params := node.params.parameters;
      var fnType := [node.returnType];
      for i := 0 to |params|
        invariant fnType == [node.returnType] + ParamTypes(params[..i])
      {
        fnType := fnType + [params[i].varType];
      }
      assert params[..|params|] == params;
      AddSymbol(id, FunctionSymbol(fnType, node.name));
    }

    method HandleParamVarDecl(node: ASTNode, id: NodeId)
      requires Valid() && C.Typed(node) && node.ParamVarDecls?
      modifies `mErrorCount, mSymbolTable
      ensures Valid() && State() == C.Handle(node, id, old(State()))
    {
      var params := node.parameters;
      ghost var start := State();
      for i := 0 to |params|
        invariant Valid() && mCurrentScopeID == start.scopeId
        invariant C.AddParams(node, i, id, State()) == C.AddParams(node, 0, id, start)
      {
        AddSymbol(id + [i], VariableSymbol(params[i].varType, mCurrentScopeID + 1, params[i].name, params[i].size));
      }
    }

    method HandleVarDecl(node: ASTNode, id: NodeId)
      requires Valid() && C.Typed(node) && node.VarDecl?
      modifies `mErrorCount, `Misplaced, mSymbolTable
      ensures Valid() && State() == C.Handle(node, id, old(State()))
    {
      if node.isParam {
        return;
      }
      AddSymbol(id, VariableSymbol(node.varType, mCurrentScopeID, node.name, node.size));
      if mCurrentScopesPath == [] || mCurrentScopesPath[0] != mCurrentScopeID {
        Misplaced := Misplaced + 1;
      }
    }

    method HandleCallExpr(node: ASTNode)
      requires Valid() && C.Typed(node) && node.CallExpr?
      modifies `mErrorCount
      ensures Valid() && forall id :: State() == C.Handle(node, id, old(State()))
    {
      if !mSymbolTable.IsFunctionNameValid(node.name) {
        mErrorCount := mErrorCount + 1;
      }
    }

    method HandleIdentifierExpr(node: ASTNode, id: NodeId)
      requires Valid() && C.Typed(node) && node.IdentifierExpr?
      modifies `mErrorCount, `Uses, mSymbolTable
      ensures Valid() && State() == C.Handle(node, id, old(State()))
    {
      var found := mSymbolTable.AddVariableUse(id, node.name, mCurrentScopesPath);
      if !found {
        mErrorCount := mErrorCount + 1;
      } else {
        Uses := Uses[id := CandidatesFrom(mSymbolTable.mTable, mCurrentScopesPath, 0, node.name)];
      }
    }
  }
}
