/** What the type checker does, handler by handler, as functions on its state. */
module TypeChecking {
  import opened Ast
  import opened LexicalScoping
  import opened SymbolTable

  /** The symbol table, the order in which iterating over it meets its entries, and for each
      operand the type that a variable holds which is compared without having been set. */
  datatype Symbols = Symbols(table: Table, order: seq<NodeId>, noise: NodeId -> Type)
  {
    ghost predicate Valid() {
      Lists(order, table)
    }
  }

  /** The checker's fields, and the bindings of uses to declarations that it adds to. `failed`
      says that an assertion, a lookup or a dereference failed, which ends the run. */
  datatype State = State(
    types: map<NodeId, Type>,
    overloads: map<NodeId, seq<NodeId>>,
    uses: map<NodeId, NodeId>,
    func: Option<NodeId>,
    errors: nat,
    failed: bool)
  {
    function Error(): State { this.(errors := errors + 1) }

    function Fail(): State { this.(failed := true) }

    function Typed(id: NodeId, ty: Type): State { this.(types := types[id := ty]) }

    /** Reading the type of a node that has none gives it the default. */
    function TypeAt(id: NodeId): Type { if id in types then types[id] else ERROR }

    function Read(id: NodeId): State { Typed(id, TypeAt(id)) }
  }

  /** Errors are never taken back. */
  predicate Grows(st: State, r: State) {
    r.errors >= st.errors && (st.failed ==> r.failed)
  }

  // ---------- symbols ----------

  function ReturnType(sym: Symbol): Type {
    if sym.FunctionSymbol? && sym.types != [] then sym.types[0] else ERROR
  }

  function ParameterTypes(sym: Symbol): seq<Type> {
    if sym.FunctionSymbol? && sym.types != [] then sym.types[1..] else []
  }

  /** The type of the variable that a node declares. */
  function VariableType(table: Table, node: NodeId): Option<Type> {
    if node in table && table[node].VariableSymbol? then Some(table[node].varType) else None
  }

  /** The type of the variable that an identifier is bound to. */
  function UseType(table: Table, uses: map<NodeId, NodeId>, use: NodeId): Option<Type> {
    if use in uses then VariableType(table, uses[use]) else None
  }

  // ---------- overload sets ----------

  function WithArity(table: Table, s: seq<NodeId>, n: nat): (r: seq<NodeId>)
    ensures forall d :: d in r <==> d in s && d in table && |ParameterTypes(table[d])| == n
    ensures NoRepeats(s) ==> NoRepeats(r)
  {
    if s == [] then []
    else
      var d, rest := s[0], WithArity(table, s[1..], n);
      if d in table && |ParameterTypes(table[d])| == n then [d] + rest else rest
  }

  predicate TakesAt(table: Table, d: NodeId, i: nat, ty: Type) {
    d in table && i < |ParameterTypes(table[d])| && ParameterTypes(table[d])[i] == ty
  }

  function WithParameter(table: Table, s: seq<NodeId>, i: nat, ty: Type): (r: seq<NodeId>)
    ensures forall d :: d in r <==> d in s && TakesAt(table, d, i, ty)
    ensures NoRepeats(s) ==> NoRepeats(r)
  {
    if s == [] then []
    else
      var rest := WithParameter(table, s[1..], i, ty);
      if TakesAt(table, s[0], i, ty) then [s[0]] + rest else rest
  }

  predicate Returns(table: Table, d: NodeId, ty: Type) {
    d in table && ReturnType(table[d]) == ty
  }

  /** The entries with the return type of some member of `inner`. */
  function WithReturnOf(table: Table, s: seq<NodeId>, inner: seq<NodeId>): (r: seq<NodeId>)
    ensures forall d :: d in r <==> d in s && d in table && exists e | e in inner :: Returns(table, e, ReturnType(table[d]))
    ensures NoRepeats(s) ==> NoRepeats(r)
  {
    if s == [] then []
    else
      var d, rest := s[0], WithReturnOf(table, s[1..], inner);
      if d in table && exists e | e in inner :: Returns(table, e, ReturnType(table[d])) then [d] + rest else rest
  }

  function FirstReturning(table: Table, s: seq<NodeId>, ty: Type): (r: Option<NodeId>)
    ensures r.Some? ==> r.value in s && Returns(table, r.value, ty)
    ensures r.None? ==> forall d | d in s :: !Returns(table, d, ty)
  {
    if s == [] then None else if Returns(table, s[0], ty) then Some(s[0]) else FirstReturning(table, s[1..], ty)
  }

  /** Binds a call to the function `d`. */
  function BindCall(syms: Symbols, id: NodeId, d: NodeId, st: State): State {
    if d !in syms.table then st
    else
      match Entry(syms.table, syms.order, syms.table[d])
      case Some(e) => st.(uses := st.uses[id := e])
      case None => st
  }

  // ---------- checking an expression against a type ----------

  function CheckCall(syms: Symbols, id: NodeId, ty: Type, st: State): (bool, State) {
    if id !in st.overloads || st.overloads[id] == [] then (false, st)
    else
      match FirstReturning(syms.table, st.overloads[id], ty)
      case Some(d) => (true, BindCall(syms, id, d, st.(overloads := st.overloads - {id})))
      case None => (false, st.Error())
  }

  predicate Compares(op: Operation) {
    op == GREATER_THAN || op == LESS_THAN
  }

  /** CheckExprEvaluateToType: a call is resolved by the type; a binary expression that has no
      type yet is evaluated through its operands. */
  function Check(syms: Symbols, n: ASTNode, id: NodeId, ty: Type, st: State): (r: (bool, State))
    ensures Grows(st, r.1) && r.1.func == st.func
    decreases n, 1
  {
    if st.failed || n.Null? then (false, st.Fail())
    else if n.CallExpr? then CheckCall(syms, id, ty, st)
    else if n.BinaryExpr? && id !in st.types then CheckOperands(syms, n, id, ty, st)
    else if id in st.types then (st.types[id] == ty, st)
    else (false, st.Fail())
  }

  function CheckOperands(syms: Symbols, n: ASTNode, id: NodeId, ty: Type, st: State): (r: (bool, State))
    requires n.BinaryExpr?
    ensures Grows(st, r.1) && r.1.func == st.func
    decreases n, 0
  {
    var operand := if Compares(n.op) then NUMBER else ty;
    var (left, mid) := Check(syms, n.lhs, id + [0], operand, st);
    var (right, after) := Check(syms, n.rhs, id + [1], operand, mid);
    if left && right then (true, after.Typed(id, ty)) else (false, after)
  }

  /** Checks, and counts an error when the check is negative. */
  function Expect(syms: Symbols, n: ASTNode, id: NodeId, ty: Type, st: State): (r: State)
    ensures Grows(st, r) && r.func == st.func
  {
    var (good, after) := Check(syms, n, id, ty, st);
    if good then after else after.Error()
  }

  // ---------- handlers ----------

  /** The type of an operand, as it is compared. Where the operand is of another kind than these,
      no type is looked up, and what is compared is whatever the variable for it holds. */
  function OperandType(syms: Symbols, n: ASTNode, id: NodeId, st: State): Option<Type> {
    if n.BinaryExpr? then (if id in st.types then Some(st.types[id]) else None)
    else if n.BooleanExpr? then Some(BOOL)
    else if n.NumberExpr? then Some(NUMBER)
    else if n.IdentifierExpr? then UseType(syms.table, st.uses, id)
    else if n.Null? then None
    else Some(syms.noise(id))
  }

  function ResultType(op: Operation, operand: Type): Type {
    if op == EQUAL || Compares(op) then BOOL else operand
  }

  function HandleBinary(syms: Symbols, n: ASTNode, id: NodeId, st: State): (r: State)
    requires n.BinaryExpr?
    ensures Grows(st, r) && r.func == st.func
  {
    if n.lhs.Null? then st.Fail()
    else if !n.lhs.IdentifierExpr? && n.op == ASSIGNMENT then st.Error()
    else
      match (OperandType(syms, n.lhs, id + [0], st), OperandType(syms, n.rhs, id + [1], st))
      case (Some(left), Some(right)) =>
        if left != right then st.Error() else st.Typed(id, ResultType(n.op, left))
      case _ => st.Fail()
  }

  /** The elements from the `i`-th on must have the type `ty`. */
  function HandleElements(n: ASTNode, i: nat, id: NodeId, ty: Type, st: State): (r: State)
    requires n.ArrayExpr? && i <= |n.elems|
    ensures Grows(st, r) && r.func == st.func
    decreases |n.elems| - i
  {
    if i == |n.elems| then
      match ArrayVersion(ty)
      case Some(arrayType) => st.Typed(id, arrayType)
      case None => st.Fail()
    else
      var mid := st.Read(id + [i]);
      if mid.TypeAt(id + [i]) != ty then mid.Error() else HandleElements(n, i + 1, id, ty, mid)
  }

  function HandleArray(n: ASTNode, id: NodeId, st: State): (r: State)
    requires n.ArrayExpr?
    ensures Grows(st, r) && r.func == st.func
  {
    if n.elems == [] then st.Error() else HandleElements(n, 0, id, st.TypeAt(id + [0]), st.Read(id + [0]))
  }

  /** The arguments from the `i`-th on rule out candidates. An argument that is a call itself
      only counts by the return types of its own candidates. */
  function HandleArguments(syms: Symbols, n: ASTNode, i: nat, id: NodeId, candidates: seq<NodeId>, st: State): (r: State)
    requires n.CallExpr? && i <= |n.args|
    ensures Grows(st, r) && r.func == st.func
    decreases |n.args| - i
  {
    if i == |n.args| then
      var after := st.(overloads := st.overloads[id := candidates]);
      if candidates == [] then after.Error() else after
    else if n.args[i].Null? then st.Fail()
    else if !n.args[i].CallExpr? then
      var mid := if candidates == [] then st else st.Read(id + [i]);
      HandleArguments(syms, n, i + 1, id, WithParameter(syms.table, candidates, i, st.TypeAt(id + [i])), mid)
    else if id + [i] !in st.overloads || st.overloads[id + [i]] == [] then
      st.(overloads := st.overloads[id + [i] := []])
    else
      HandleArguments(syms, n, i + 1, id, WithReturnOf(syms.table, candidates, st.overloads[id + [i]]), st)
  }

  function HandleCall(syms: Symbols, n: ASTNode, id: NodeId, st: State): (r: State)
    requires n.CallExpr?
    ensures Grows(st, r) && r.func == st.func
  {
    var candidates := WithArity(syms.table, WithName(syms.table, syms.order, n.name), |n.args|);
    if candidates == [] then st.Error().(overloads := st.overloads[id := []])
    else HandleArguments(syms, n, 0, id, candidates, st)
  }

  /** The kinds of initializers for which a wrong type is counted. */
  predicate IsReported(n: ASTNode) {
    n.ArrayExpr? || n.BooleanExpr? || n.NumberExpr? || n.StringExpr? || n.BinaryExpr? || n.IdentifierExpr?
  }

  function HandleVar(syms: Symbols, n: ASTNode, id: NodeId, st: State): (r: State)
    requires n.VarDecl?
    ensures Grows(st, r) && r.func == st.func
  {
    if n.init.Null? then st
    else
      match VariableType(syms.table, id)
      case None => st.Fail()
      case Some(ty) =>
        var (good, after) := Check(syms, n.init, id + [0], ty, st);
        var after' := if !good && IsReported(n.init) then after.Error() else after;
        if n.size != 0 && n.init.ArrayExpr? && n.size != |n.init.elems| then after'.Error() else after'
  }

  function HandleReturn(syms: Symbols, n: ASTNode, id: NodeId, st: State): (r: State)
    requires n.ReturnStmt?
    ensures Grows(st, r) && r.func == st.func
  {
    if st.func.None? || st.func.value !in syms.table || !syms.table[st.func.value].FunctionSymbol? then st.Fail()
    else
      var ty := ReturnType(syms.table[st.func.value]);
      if ty == VOID then (if n.result.Null? then st else st.Error())
      else Expect(syms, n.result, id + [0], ty, st)
  }

  function HandleIdentifier(syms: Symbols, id: NodeId, st: State): (r: State)
    ensures Grows(st, r) && r.func == st.func
  {
    match UseType(syms.table, st.uses, id)
    case Some(ty) => st.Typed(id, ty)
    case None => st.Fail()
  }

  function HandleIndexed(syms: Symbols, n: ASTNode, id: NodeId, st: State): (r: State)
    requires n.IndexedExpr?
    ensures Grows(st, r) && r.func == st.func
  {
    var mid := Expect(syms, n.index, id + [1], NUMBER, st);
    if id + [0] in mid.types then mid.Typed(id, mid.types[id + [0]]) else mid.Fail()
  }

  function HandleSpawn(n: ASTNode, st: State): (r: State)
    requires n.SpawnExpr?
    ensures Grows(st, r) && r.func == st.func
  {
    if n.call.Null? then st.Fail() else if n.call.CallExpr? then st else st.Error()
  }

  /** The dispatch; a sleep is not dispatched. */
  function Handle(syms: Symbols, n: ASTNode, id: NodeId, st: State): (r: State)
    ensures Grows(st, r) && r.func == st.func
  {
    if st.failed then st
    else
      match n
      case VarDecl(_, _, _, _, _, _) => HandleVar(syms, n, id, st)
      case ArrayExpr(_, _) => HandleArray(n, id, st)
      case BinaryExpr(_, _, _, _) => HandleBinary(syms, n, id, st)
      case BooleanExpr(_, _) => st.Typed(id, BOOL)
      case CallExpr(_, _, _) => HandleCall(syms, n, id, st)
      case IdentifierExpr(_, _) => HandleIdentifier(syms, id, st)
      case IndexedExpr(_, _, _) => HandleIndexed(syms, n, id, st)
      case NumberExpr(_, _) => st.Typed(id, NUMBER)
      case SpawnExpr(_, _) => HandleSpawn(n, st)
      case StringExpr(_, _) => st.Typed(id, STRING)
      case IfStmt(cond, _, _) => Expect(syms, cond, id + [0], BOOL, st)
      case ReturnStmt(_, _) => HandleReturn(syms, n, id, st)
      case WhileStmt(cond, _, _) => Expect(syms, cond, id + [0], BOOL, st)
      case _ => st
  }

  // ---------- the traversal ----------

  function Enter(n: ASTNode, id: NodeId, st: State): State {
    if n.FunctionDecl? then st.(func := Some(id)) else st
  }

  function Leave(n: ASTNode, st: State): State {
    if n.FunctionDecl? then st.(func := None) else st
  }

  /** A visit: the prologue hook, the children, the node's handler, the epilogue hook. */
  function Visit(syms: Symbols, n: ASTNode, id: NodeId, st: State): (r: State)
    ensures Grows(st, r)
    decreases n, |n.Children()| + 1
  {
    if n.Null? then st
    else Leave(n, Handle(syms, n, id, VisitFrom(syms, n, 0, id, Enter(n, id, st))))
  }

  function VisitFrom(syms: Symbols, n: ASTNode, i: nat, id: NodeId, st: State): (r: State)
    requires i <= |n.Children()|
    ensures Grows(st, r)
    decreases n, |n.Children()| - i
  {
    if i == |n.Children()| then st
    else VisitFrom(syms, n, i + 1, id, Visit(syms, n.Children()[i], id + [i], st))
  }

  // ---------- the whole run ----------

  function Ambiguous(overloads: map<NodeId, seq<NodeId>>): set<NodeId> {
    set id | id in overloads && |overloads[id]| > 1
  }

  /** What is left of the calls: a call with one candidate is bound to it, several are an error. */
  function Finished(syms: Symbols, st: State): State {
    st.(errors := st.errors + |Ambiguous(st.overloads)|, uses := Rebound(syms, st, st.overloads.Keys))
  }

  /** The bindings once the calls in `done` have been gone through. */
  function Rebound(syms: Symbols, st: State, done: set<NodeId>): map<NodeId, NodeId> {
    map id | id in st.uses.Keys + done && (id in st.uses || LastBinding(syms, id, st).Some?) ::
      if id in done && LastBinding(syms, id, st).Some? then LastBinding(syms, id, st).value else st.uses[id]
  }

  function LastBinding(syms: Symbols, id: NodeId, st: State): Option<NodeId> {
    if id in st.overloads && |st.overloads[id]| == 1 && st.overloads[id][0] in syms.table
    then Entry(syms.table, syms.order, syms.table[st.overloads[id][0]])
    else None
  }

  function Start(uses: map<NodeId, NodeId>): State {
    State(map[], map[], uses, None, 0, false)
  }

  function Checked(syms: Symbols, root: ASTNode, uses: map<NodeId, NodeId>): State
  {
    var st := Visit(syms, root, [], Start(uses));
    if st.failed then st else Finished(syms, st)
  }
}
