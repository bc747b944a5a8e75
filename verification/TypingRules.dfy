/** The typing rules of TosLang, stated over the tree alone: which type an expression has, which
    functions a call may mean, and when the parts of a statement agree.

    The type checker departs from the rules as they are meant in five places, its quirks. Each can
    be switched on and off here; `INTENDED` are the rules without, `Coded` those with them all. */
module TypingRules {
  import opened Ast
  import opened LexicalScoping

  /** What is declared somewhere in a program. */
  datatype Declaration = Variable(varType: Type) | Function(name: string, result: Type, parameters: seq<Type>)

  type Declarations = map<NodeId, Declaration>

  /** What a call that is an argument has to return: the type that the outer function declares for
      its parameter, or the type that the outer function returns. */
  datatype Rule = ByParameter | ByResult

  /** How calls are matched that are arguments; whether calls have types as operands and elements
      of arrays; whether an index expression has the type of the whole array; the types that operands
      are taken to have for which none is looked up; and whether sleeps and indexed initializers go
      without a comparison of types. */
  datatype Quirks = Quirks(calls: Rule, callTypes: bool, wholeArrays: bool, unset: Option<NodeId -> Type>, unchecked: bool)

  const INTENDED := Quirks(ByParameter, true, false, None, false)

  function Coded(noise: NodeId -> Type): Quirks {
    Quirks(ByResult, false, true, Some(noise), true)
  }

  /** What is declared, which declaration every identifier is bound to, and the rules. */
  datatype Context = Context(decls: Declarations, uses: map<NodeId, NodeId>, quirks: Quirks)

  // ---------- the programs the rules are for ----------

  /** Expressions without calls. */
  predicate Plain(n: ASTNode)
    decreases n
  {
    match n
    case ArrayExpr(elems, _) => forall i | 0 <= i < |elems| :: Plain(elems[i])
    case BinaryExpr(_, lhs, rhs, _) => Plain(lhs) && Plain(rhs)
    case BooleanExpr(_, _) => true
    case IdentifierExpr(_, _) => true
    case IndexedExpr(ident, index, _) => ident.IdentifierExpr? && Plain(index)
    case NumberExpr(_, _) => true
    case StringExpr(_, _) => true
    case _ => false
  }

  /** Expressions, with calls anywhere. */
  predicate Simple(n: ASTNode)
    decreases n
  {
    match n
    case ArrayExpr(elems, _) => forall i | 0 <= i < |elems| :: Simple(elems[i])
    case BinaryExpr(_, lhs, rhs, _) => Simple(lhs) && Simple(rhs)
    case BooleanExpr(_, _) => true
    case CallExpr(_, args, _) => forall i | 0 <= i < |args| :: Simple(args[i])
    case IdentifierExpr(_, _) => true
    case IndexedExpr(ident, index, _) => Simple(ident) && Simple(index)
    case NumberExpr(_, _) => true
    case StringExpr(_, _) => true
    case _ => false
  }

  /** What a failed parse leaves in place of a declaration or statement. */
  predicate IsMissing(n: ASTNode) {
    n.Null? || n.ErrorNode?
  }

  /** Programs, and their declarations and statements. */
  predicate Checkable(n: ASTNode)
    decreases n
  {
    match n
    case ProgramDecl(decls) =>
      forall i | 0 <= i < |decls| :: (decls[i].VarDecl? || decls[i].FunctionDecl? || IsMissing(decls[i])) && Checkable(decls[i])
    case FunctionDecl(_, _, params, body, _) =>
      && params.ParamVarDecls? && body.CompoundStmt? && Checkable(body)
      && forall i | 0 <= i < |params.parameters| :: params.parameters[i].VarDecl? && params.parameters[i].init.Null?
    case VarDecl(_, _, _, _, init, _) => init.Null? || Simple(init)
    case CompoundStmt(stmts) => forall i | 0 <= i < |stmts| :: IsSimpleStmt(stmts[i]) && Checkable(stmts[i])
    case IfStmt(cond, body, _) => Simple(cond) && body.CompoundStmt? && Checkable(body)
    case WhileStmt(cond, body, _) => Simple(cond) && body.CompoundStmt? && Checkable(body)
    case PrintStmt(message, _) => message.Null? || Simple(message)
    case ReturnStmt(result, _) => result.Null? || Simple(result)
    case ScanStmt(input, _) => Simple(input)
    case SleepStmt(count, _) => Simple(count)
    case SpawnExpr(call, _) => call.CallExpr? && Simple(call)
    case SyncStmt(_) => true
    case _ => IsMissing(n) || Simple(n)
  }

  predicate IsSimpleStmt(n: ASTNode) {
    !n.FunctionDecl? && !n.ProgramDecl?
  }

  // ---------- declarations ----------

  /** The type of the variable that is declared at a node. */
  function DeclaredType(decls: Declarations, node: NodeId): Option<Type> {
    if node in decls && decls[node].Variable? then Some(decls[node].varType) else None
  }

  /** The type of the variable that an identifier is bound to. */
  function TypeOfUse(decls: Declarations, uses: map<NodeId, NodeId>, use: NodeId): Option<Type> {
    if use in uses then DeclaredType(decls, uses[use]) else None
  }

  /** A function is declared there that returns `ty`. */
  predicate Gives(decls: Declarations, d: NodeId, ty: Type) {
    d in decls && decls[d].Function? && decls[d].result == ty
  }

  // ---------- expressions ----------

  /** What an operation on values of type `operand` gives: comparisons give truth values. */
  function OperationType(op: Operation, operand: Type): Type {
    match op
    case EQUAL => BOOL
    case GREATER_THAN => BOOL
    case LESS_THAN => BOOL
    case ASSIGNMENT => operand
    case AND_BOOL => operand
    case AND_INT => operand
    case DIVIDE => operand
    case LEFT_SHIFT => operand
    case MINUS => operand
    case MODULO => operand
    case MULT => operand
    case NOT => operand
    case OR_BOOL => operand
    case OR_INT => operand
    case PLUS => operand
    case RIGHT_SHIFT => operand
    case UNKNOWN_OP => operand
  }

  /** The operands for which the checker looks up a type. */
  predicate IsOperand(n: ASTNode) {
    n.BinaryExpr? || n.BooleanExpr? || n.IdentifierExpr? || n.NumberExpr?
  }

  function ElementType(ty: Type): Option<Type> {
    match ty
    case BOOL_ARRAY => Some(BOOL)
    case NUMBER_ARRAY => Some(NUMBER)
    case STRING_ARRAY => Some(STRING)
    case _ => None
  }

  /** The type of an index expression into what has type `ty`. */
  function IndexedType(g: Context, ty: Option<Type>): Option<Type> {
    if g.quirks.wholeArrays || ty.None? then ty else ElementType(ty.value)
  }

  /** The type of an expression that is no call. */
  ghost function TypeOf(g: Context, n: ASTNode, id: NodeId): Option<Type>
    decreases n, 0
  {
    match n
    case BooleanExpr(_, _) => Some(BOOL)
    case NumberExpr(_, _) => Some(NUMBER)
    case StringExpr(_, _) => Some(STRING)
    case IdentifierExpr(_, _) => TypeOfUse(g.decls, g.uses, id)
    case IndexedExpr(ident, index, _) =>
      if MayHave(g, index, id + [1], NUMBER) then IndexedType(g, TypeOf(g, ident, id + [0])) else None
    case BinaryExpr(op, lhs, rhs, _) =>
      var left, right := OperandTypeOf(g, lhs, id + [0]), OperandTypeOf(g, rhs, id + [1]);
      if left.Some? && left == right && (op == ASSIGNMENT ==> lhs.IdentifierExpr?) then Some(OperationType(op, left.value))
      else None
    case ArrayExpr(elems, _) =>
      if elems == [] then None
      else
        var ty := ValueType(g, elems[0], id + [0]);
        if ty.Some? && forall i | 0 <= i < |elems| :: ValueType(g, elems[i], id + [i]) == ty
        then ArrayVersion(ty.value) else None
    case _ => None
  }

  /** All functions that a call may mean return `ty`. */
  ghost predicate AllReturn(g: Context, n: ASTNode, id: NodeId, ty: Type)
    requires n.CallExpr?
    decreases n, 3
  {
    forall d | Means(g, n, id, d) :: Gives(g.decls, d, ty)
  }

  /** The type that a call has by itself: what every function it may mean returns. */
  ghost function CallType(g: Context, n: ASTNode, id: NodeId): Option<Type>
    requires n.CallExpr?
    decreases n, 4
  {
    if (exists d :: Means(g, n, id, d)) && exists ty :: AllReturn(g, n, id, ty)
    then var ty :| AllReturn(g, n, id, ty); Some(ty)
    else None
  }

  /** The type of an expression that is part of an operation or array. */
  ghost function ValueType(g: Context, n: ASTNode, id: NodeId): Option<Type>
    decreases n, 5
  {
    if !n.CallExpr? then TypeOf(g, n, id) else if g.quirks.callTypes then CallType(g, n, id) else None
  }

  /** The type that an operand counts as. */
  ghost function OperandTypeOf(g: Context, n: ASTNode, id: NodeId): Option<Type>
    decreases n, 6
  {
    if !Evaluates(g, n, id) then None
    else if g.quirks.unset.Some? && !IsOperand(n) then Some(g.quirks.unset.value(id))
    else ValueType(g, n, id)
  }

  /** An expression can be given a type somehow. */
  ghost predicate Evaluates(g: Context, n: ASTNode, id: NodeId)
    decreases n, 3
  {
    if n.CallExpr? then exists d :: Means(g, n, id, d) else TypeOf(g, n, id).Some?
  }

  /** The expression, or a function that it may mean, gives a value of this type. */
  ghost predicate MayHave(g: Context, n: ASTNode, id: NodeId, ty: Type)
    decreases n, 3
  {
    if n.CallExpr? then exists d :: Means(g, n, id, d) && Gives(g.decls, d, ty) else TypeOf(g, n, id) == Some(ty)
  }

  // ---------- calls ----------

  function Asked(rule: Rule, f: Declaration, i: nat): Type
    requires f.Function? && i < |f.parameters|
  {
    if rule.ByParameter? then f.parameters[i] else f.result
  }

  predicate IsFor(decls: Declarations, n: ASTNode, d: NodeId)
    requires n.CallExpr?
  {
    d in decls && decls[d].Function? && decls[d].name == n.name && |decls[d].parameters| == |n.args|
  }

  /** The function `d` may be called with the `i`-th argument. */
  ghost predicate Takes(rule: Rule, g: Context, n: ASTNode, i: nat, id: NodeId, d: NodeId)
    requires n.CallExpr? && i < |n.args| && IsFor(g.decls, n, d)
    decreases n, 0
  {
    if n.args[i].CallExpr? then
      exists e :: MeansBy(rule, g, n.args[i], id + [i], e) && Gives(g.decls, e, Asked(rule, g.decls[d], i))
    else TypeOf(g, n.args[i], id + [i]) == Some(g.decls[d].parameters[i])
  }

  /** The call may mean the function `d`: it has that name, its parameters have the types of the
      other arguments, and a call that is an argument may return what is asked for. */
  ghost predicate MeansBy(rule: Rule, g: Context, n: ASTNode, id: NodeId, d: NodeId)
    requires n.CallExpr?
    decreases n, 1
  {
    IsFor(g.decls, n, d) && forall i | 0 <= i < |n.args| :: Takes(rule, g, n, i, id, d)
  }

  ghost predicate Means(g: Context, n: ASTNode, id: NodeId, d: NodeId)
    requires n.CallExpr?
    decreases n, 2
  {
    MeansBy(g.quirks.calls, g, n, id, d)
  }

  /** An index is the one part of an expression that a type is asked of. */
  predicate Resolves(n: ASTNode, i: nat) {
    n.IndexedExpr? && i == 1
  }

  /** Every call in the expression may mean one function only. */
  ghost predicate Unambiguous(g: Context, n: ASTNode, id: NodeId)
    decreases n, 1
  {
    (n.CallExpr? ==> forall d, e :: Means(g, n, id, d) && Means(g, n, id, e) ==> d == e) && Inner(g, n, id)
  }

  /** Every call but the expression itself, and but those that are resolved by being asked for a type. */
  ghost predicate Inner(g: Context, n: ASTNode, id: NodeId)
    decreases n, 0
  {
    forall i | 0 <= i < |n.Children()| ::
      if Resolves(n, i) then Inner(g, n.Children()[i], id + [i]) else Unambiguous(g, n.Children()[i], id + [i])
  }

  /** An expression in a place that asks for type `ty`. A call is resolved by that type, the calls
      in it are not. */
  ghost predicate HasType(g: Context, n: ASTNode, id: NodeId, ty: Type) {
    MayHave(g, n, id, ty) && Inner(g, n, id)
  }

  /** An expression in a place that takes any type; a call must then be unambiguous. */
  ghost predicate HasSomeType(g: Context, n: ASTNode, id: NodeId) {
    Evaluates(g, n, id) && Unambiguous(g, n, id)
  }

  // ---------- statements and declarations ----------

  /** An initializer has the declared type, and an array as many elements as declared. */
  ghost predicate GoodInit(g: Context, n: ASTNode, id: NodeId)
    requires n.VarDecl?
  {
    n.init.Null? ||
    match DeclaredType(g.decls, id)
    case None => false
    case Some(ty) =>
      && (if n.init.IndexedExpr? && g.quirks.unchecked then HasSomeType(g, n.init, id + [0])
          else HasType(g, n.init, id + [0], ty))
      && (n.init.ArrayExpr? && n.size != 0 ==> n.size == |n.init.elems|)
  }

  /** What the function declared at a node returns. */
  function ResultOf(decls: Declarations, func: Option<NodeId>): Option<Type> {
    if func.Some? && func.value in decls && decls[func.value].Function? then Some(decls[func.value].result) else None
  }

  /** A return gives what its function is declared to return, if anything. */
  ghost predicate GoodReturn(g: Context, n: ASTNode, id: NodeId, func: Option<NodeId>)
    requires n.ReturnStmt?
  {
    match ResultOf(g.decls, func)
    case None => false
    case Some(ty) => if ty == VOID then n.result.Null? else !n.result.Null? && HasType(g, n.result, id + [0], ty)
  }

  /** A sleep counts a number. */
  ghost predicate GoodSleep(g: Context, n: ASTNode, id: NodeId)
    requires n.SleepStmt?
  {
    if g.quirks.unchecked then HasSomeType(g, n.count, id + [0]) else HasType(g, n.count, id + [0], NUMBER)
  }

  /** A program, declaration or statement, which may be part of the function `func`. */
  ghost predicate WellTyped(g: Context, n: ASTNode, id: NodeId, func: Option<NodeId>)
    decreases n
  {
    match n
    case ProgramDecl(decls) => forall i | 0 <= i < |decls| :: WellTyped(g, decls[i], id + [i], func)
    case FunctionDecl(_, _, _, body, _) => WellTyped(g, body, id + [1], Some(id))
    case VarDecl(_, _, _, _, _, _) => GoodInit(g, n, id)
    case CompoundStmt(stmts) => forall i | 0 <= i < |stmts| :: WellTyped(g, stmts[i], id + [i], func)
    case IfStmt(cond, body, _) => HasType(g, cond, id + [0], BOOL) && WellTyped(g, body, id + [1], func)
    case WhileStmt(cond, body, _) => HasType(g, cond, id + [0], BOOL) && WellTyped(g, body, id + [1], func)
    case PrintStmt(message, _) => message.Null? || HasSomeType(g, message, id + [0])
    case ReturnStmt(_, _) => GoodReturn(g, n, id, func)
    case ScanStmt(input, _) => HasSomeType(g, input, id + [0])
    case SleepStmt(_, _) => GoodSleep(g, n, id)
    case SpawnExpr(call, _) => HasSomeType(g, call, id + [0])
    case SyncStmt(_) => true
    case _ => IsMissing(n) || HasSomeType(g, n, id)
  }
}
