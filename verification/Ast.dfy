/** The abstract syntax tree of TosLang, shared by every front-end pass.
    One datatype constructor stands for one node class; `Null` is a null pointer and
    `ErrorNode` any node of kind ERROR. */
module Ast {

  datatype SourceLocation = SourceLocation(line: nat, column: nat)

  const DEFAULT_LOCATION := SourceLocation(0, 0)

  datatype Type =
    | ERROR | BOOL | NUMBER | STRING | VOID
    | BOOL_ARRAY | NUMBER_ARRAY | STRING_ARRAY | UNKNOWN

  datatype Option<+T> = None | Some(value: T)

  /** Only scalars have an array version. */
  function ArrayVersion(ty: Type): Option<Type> {
    match ty
    case BOOL => Some(BOOL_ARRAY)
    case NUMBER => Some(NUMBER_ARRAY)
    case STRING => Some(STRING_ARRAY)
    case _ => None
  }

  datatype Operation =
    | ASSIGNMENT | AND_BOOL | AND_INT | DIVIDE | EQUAL | GREATER_THAN | LEFT_SHIFT | LESS_THAN
    | MINUS | MODULO | MULT | NOT | OR_BOOL | OR_INT | PLUS | RIGHT_SHIFT | UNKNOWN_OP

  datatype ASTNode =
    | Null
    | ErrorNode
    // Declarations
    | ProgramDecl(decls: seq<ASTNode>)
    | FunctionDecl(name: string, returnType: Type, params: ASTNode, body: ASTNode, loc: SourceLocation)
    | ParamVarDecls(parameters: seq<ASTNode>)
    | VarDecl(name: string, varType: Type, isParam: bool, size: int, init: ASTNode, loc: SourceLocation)
    // Expressions
    | ArrayExpr(elems: seq<ASTNode>, loc: SourceLocation)
    | BinaryExpr(op: Operation, lhs: ASTNode, rhs: ASTNode, loc: SourceLocation)
    | BooleanExpr(flag: bool, loc: SourceLocation)
    | CallExpr(name: string, args: seq<ASTNode>, loc: SourceLocation)
    | IdentifierExpr(name: string, loc: SourceLocation)
    | IndexedExpr(ident: ASTNode, index: ASTNode, loc: SourceLocation)
    | NumberExpr(value: int, loc: SourceLocation)
    | SpawnExpr(call: ASTNode, loc: SourceLocation)
    | StringExpr(text: string, loc: SourceLocation)
    // Statements
    | CompoundStmt(stmts: seq<ASTNode>)
    | IfStmt(cond: ASTNode, body: ASTNode, loc: SourceLocation)
    | PrintStmt(message: ASTNode, loc: SourceLocation)
    | ReturnStmt(result: ASTNode, loc: SourceLocation)
    | ScanStmt(input: ASTNode, loc: SourceLocation)
    | SleepStmt(count: ASTNode, loc: SourceLocation)
    | SyncStmt(loc: SourceLocation)
    | WhileStmt(cond: ASTNode, body: ASTNode, loc: SourceLocation)
  {
    /** The children in the order the node's constructor adds them; an optional child that
        was never added does not appear. */
    function Children(): (children: seq<ASTNode>)
      ensures forall i :: 0 <= i < |children| ==> children[i] < this
    {
      match this
      case ProgramDecl(decls) => decls
      case FunctionDecl(_, _, params, body, _) => [params, body]
      case ParamVarDecls(parameters) => parameters
      case VarDecl(_, _, _, _, init, _) => Present(init)
      case ArrayExpr(elems, _) => elems
      case BinaryExpr(_, lhs, rhs, _) => [lhs, rhs]
      case CallExpr(_, args, _) => args
      case IndexedExpr(ident, index, _) => [ident, index]
      case SpawnExpr(call, _) => [call]
      case CompoundStmt(stmts) => stmts
      case IfStmt(cond, body, _) => [cond, body]
      case PrintStmt(message, _) => Present(message)
      case ReturnStmt(result, _) => Present(result)
      case ScanStmt(input, _) => [input]
      case SleepStmt(count, _) => [count]
      case WhileStmt(cond, body, _) => [cond, body]
      case _ => []
    }
  }

  function Present(child: ASTNode): seq<ASTNode> {
    if child.Null? then [] else [child]
  }

  // ---------- the grammar the parser builds trees in ----------
  // A failed parse leaves null pointers and error nodes in place of expressions, statements
  // and declarations; the passes skip both.

  predicate IsExpr(n: ASTNode)
    decreases n
  {
    match n
    case Null => true
    case ErrorNode => true
    case ArrayExpr(elems, _) => forall i | 0 <= i < |elems| :: IsExpr(elems[i])
    case BinaryExpr(_, lhs, rhs, _) => IsExpr(lhs) && IsExpr(rhs)
    case BooleanExpr(_, _) => true
    case CallExpr(_, args, _) => forall i | 0 <= i < |args| :: IsExpr(args[i])
    case IdentifierExpr(_, _) => true
    case IndexedExpr(ident, index, _) => IsExpr(ident) && IsExpr(index)
    case NumberExpr(_, _) => true
    case SpawnExpr(call, _) => IsExpr(call)
    case StringExpr(_, _) => true
    case _ => false
  }

  predicate IsStmt(n: ASTNode)
    decreases n
  {
    match n
    case VarDecl(_, _, isParam, _, init, _) => !isParam && IsExpr(init)
    case CompoundStmt(stmts) => forall i | 0 <= i < |stmts| :: IsStmt(stmts[i])
    case IfStmt(cond, body, _) => IsExpr(cond) && IsBlock(body)
    case WhileStmt(cond, body, _) => IsExpr(cond) && IsBlock(body)
    case PrintStmt(message, _) => IsExpr(message)
    case ReturnStmt(result, _) => IsExpr(result)
    case ScanStmt(input, _) => IsExpr(input)
    case SleepStmt(count, _) => IsExpr(count)
    case SyncStmt(_) => true
    case _ => IsExpr(n)
  }

  predicate IsBlock(n: ASTNode)
    decreases n
  {
    n.CompoundStmt? && forall i | 0 <= i < |n.stmts| :: IsStmt(n.stmts[i])
  }

  predicate IsParam(n: ASTNode) {
    n.VarDecl? && n.isParam && n.init.Null?
  }

  predicate IsDecl(n: ASTNode) {
    match n
    case Null => true
    case ErrorNode => true
    case VarDecl(_, _, isParam, _, init, _) => !isParam && IsExpr(init)
    case FunctionDecl(_, _, params, body, _) =>
      && params.ParamVarDecls? && IsBlock(body)
      && forall i | 0 <= i < |params.parameters| :: IsParam(params.parameters[i])
    case _ => false
  }

  predicate IsProgram(n: ASTNode) {
    n.ProgramDecl? && forall i | 0 <= i < |n.decls| :: IsDecl(n.decls[i])
  }
}
