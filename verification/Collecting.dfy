/** What the symbol collector does, hook by hook and handler by handler, as functions on its
    state. */
module Collecting {
  import opened Ast
  import opened LexicalScoping
  import opened SymbolTable

  /** The collector's fields and the table it fills; for every use it bound the declarations it
      could have picked; and how many variables it entered under another scope than the current
      one. `path` lists the ids of the open scopes, the current one first. */
  datatype State = State(
    table: Table,
    scopeId: nat,
    path: seq<nat>,
    errors: nat,
    uses: map<NodeId, set<NodeId>>,
    misplaced: nat)

  const FRESH := State(map[], 0, [0], 0, map[], 0)

  /** The types the C++ node classes give to the children of a function declaration. */
  predicate Typed(n: ASTNode)
    decreases n
  {
    && (n.FunctionDecl? ==> n.params.ParamVarDecls?)
    && (n.ParamVarDecls? ==> forall i | 0 <= i < |n.parameters| :: n.parameters[i].VarDecl?)
    && forall i | 0 <= i < |n.Children()| :: Typed(n.Children()[i])
  }

  function Add(st: State, id: NodeId, sym: Symbol): State {
    st.(table := WithSymbol(st.table, id, sym),
        errors := st.errors + if HasClash(st.table, sym) then 1 else 0)
  }

  /** A variable that is no parameter gets the id of the scope opened last. */
  function AddVar(st: State, id: NodeId, sym: Symbol): State {
    var outside := if st.path == [] || st.path[0] != st.scopeId then 1 else 0;
    Add(st, id, sym).(misplaced := st.misplaced + outside)
  }

  function Enter(n: ASTNode, st: State): State {
    if n.CompoundStmt? then st.(scopeId := st.scopeId + 1, path := [st.scopeId + 1] + st.path) else st
  }

  function Leave(n: ASTNode, st: State): State {
    if n.CompoundStmt? && st.path != [] then st.(path := st.path[1..]) else st
  }

  /** The parameters from the `i`-th on get the id the body's scope is about to receive. */
  function AddParams(n: ASTNode, i: nat, id: NodeId, st: State): (r: State)
    requires n.ParamVarDecls? && i <= |n.parameters|
    requires forall j | 0 <= j < |n.parameters| :: n.parameters[j].VarDecl?
    ensures r == st.(table := r.table, errors := r.errors)
    decreases |n.parameters| - i
  {
    if i == |n.parameters| then st
    else
      var p := n.parameters[i];
      AddParams(n, i + 1, id, Add(st, id + [i], VariableSymbol(p.varType, st.scopeId + 1, p.name, p.size)))
  }

  function Handle(n: ASTNode, id: NodeId, st: State): (r: State)
    requires Typed(n)
    ensures r.path == st.path && r.scopeId == st.scopeId
  {
    match n
    case FunctionDecl(name, _, params, _, _) =>
      assert Typed(n.Children()[0]);
      var sig := SignatureOf(n);
      Add(st, id, FunctionSymbol(sig.types, name))
    case ParamVarDecls(_) => AddParams(n, 0, id, st)
    case VarDecl(name, varType, isParam, size, _, _) =>
      if isParam then st else AddVar(st, id, VariableSymbol(varType, st.scopeId, name, size))
    case CallExpr(name, _, _) => if HasFunction(st.table, name) then st else st.(errors := st.errors + 1)
    case IdentifierExpr(name, _) =>
      var candidates := CandidatesFrom(st.table, st.path, 0, name);
      if candidates == {} then st.(errors := st.errors + 1) else st.(uses := st.uses[id := candidates])
    case _ => st
  }

  /** A visit: the prologue hook, the node's handler, the children, the epilogue hook. */
  function Collect(n: ASTNode, id: NodeId, st: State): (r: State)
    requires Typed(n)
    ensures r.path == st.path && r.scopeId >= st.scopeId
    decreases n, |n.Children()| + 1
  {
    if n.Null? then st
    else Leave(n, CollectFrom(n, 0, id, Handle(n, id, Enter(n, st))))
  }

  function CollectFrom(n: ASTNode, i: nat, id: NodeId, st: State): (r: State)
    requires Typed(n) && i <= |n.Children()|
    ensures r.path == st.path && r.scopeId >= st.scopeId
    decreases n, |n.Children()| - i
  {
    if i == |n.Children()| then st
    else CollectFrom(n, i + 1, id, Collect(n.Children()[i], id + [i], st))
  }
}
