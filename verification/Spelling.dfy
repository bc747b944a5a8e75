/** How a tree is written down as tokens, and which tree the parser makes of them. */
module Spelling {
  import opened Ast
  import opened Tokens

  // ---------- the trees that can be written down ----------

  predicate IsSourceExpr(n: ASTNode)
    decreases n
  {
    match n
    case ArrayExpr(elems, _) => forall i | 0 <= i < |elems| :: IsSourceExpr(elems[i])
    case BinaryExpr(op, lhs, rhs, _) => !op.UNKNOWN_OP? && IsSourceExpr(lhs) && IsSourceExpr(rhs)
    case BooleanExpr(_, _) => true
    case CallExpr(_, args, _) => forall i | 0 <= i < |args| :: IsSourceExpr(args[i])
    case IdentifierExpr(_, _) => true
    case NumberExpr(value, _) => 0 <= value <= MAX_INT
    case StringExpr(_, _) => true
    case _ => false
  }

  predicate IsOptionalExpr(n: ASTNode) {
    n.Null? || IsSourceExpr(n)
  }

  /** An expression whose first token is an identifier, as a statement's must be. */
  predicate StartsWithName(n: ASTNode)
    decreases n
  {
    n.IdentifierExpr? || n.CallExpr? || (n.BinaryExpr? && StartsWithName(n.lhs))
  }

  predicate IsScalar(ty: Type) {
    ty.BOOL? || ty.NUMBER? || ty.STRING?
  }

  predicate IsArray(ty: Type) {
    ty.BOOL_ARRAY? || ty.NUMBER_ARRAY? || ty.STRING_ARRAY?
  }

  predicate IsSourceVar(n: ASTNode) {
    && n.VarDecl? && !n.isParam && IsOptionalExpr(n.init)
    && ((n.size == 0 && IsScalar(n.varType)) || (0 < n.size <= MAX_INT && IsArray(n.varType)))
  }

  predicate IsSourceStmt(n: ASTNode)
    decreases n
  {
    match n
    case VarDecl(_, _, _, _, _, _) => IsSourceVar(n)
    case IfStmt(cond, body, _) => IsSourceExpr(cond) && IsSourceBlock(body)
    case WhileStmt(cond, body, _) => IsSourceExpr(cond) && IsSourceBlock(body)
    case PrintStmt(message, _) => IsOptionalExpr(message)
    case ReturnStmt(result, _) => IsOptionalExpr(result)
    case ScanStmt(input, _) => input.IdentifierExpr?
    case SleepStmt(count, _) => IsSourceExpr(count)
    case _ => IsSourceExpr(n) && StartsWithName(n)
  }

  predicate IsSourceBlock(n: ASTNode)
    decreases n
  {
    n.CompoundStmt? && forall i | 0 <= i < |n.stmts| :: IsSourceStmt(n.stmts[i])
  }

  predicate IsSourceParam(n: ASTNode) {
    n.VarDecl? && n.isParam && n.size == 0 && n.init.Null? && (IsScalar(n.varType) || n.varType.VOID?)
  }

  predicate IsSourceDecl(n: ASTNode) {
    match n
    case VarDecl(_, _, _, _, _, _) => IsSourceVar(n)
    case FunctionDecl(_, returnType, params, body, _) =>
      && (IsScalar(returnType) || returnType.VOID?)
      && params.ParamVarDecls? && (forall i | 0 <= i < |params.parameters| :: IsSourceParam(params.parameters[i]))
      && IsSourceBlock(body)
    case _ => false
  }

  predicate IsSource(n: ASTNode) {
    n.ProgramDecl? && forall i | 0 <= i < |n.decls| :: IsSourceDecl(n.decls[i])
  }

  // ---------- writing down ----------

  function ExprTokens(n: ASTNode): seq<Token>
    requires IsSourceExpr(n)
    decreases n, |n.Children()| + 1
  {
    match n
    case ArrayExpr(elems, _) => [LEFT_BRACE] + ListTokens(n, 0) + [RIGHT_BRACE]
    case BinaryExpr(op, lhs, rhs, _) => ExprTokens(lhs) + [OPERATOR(op)] + ExprTokens(rhs)
    case BooleanExpr(flag, _) => [if flag then TRUE else FALSE]
    case CallExpr(name, args, _) => [IDENTIFIER(name), LEFT_PAREN] + ListTokens(n, 0) + [RIGHT_PAREN]
    case IdentifierExpr(name, _) => [IDENTIFIER(name)]
    case NumberExpr(value, _) => [Token.NUMBER(value)]
    case StringExpr(text, _) => [STRING_LITERAL(text)]
  }

  /** The elements or arguments from the `i`-th on, separated by commas. */
  function ListTokens(n: ASTNode, i: nat): seq<Token>
    requires (n.ArrayExpr? || n.CallExpr?) && IsSourceExpr(n) && i <= |n.Children()|
    decreases n, |n.Children()| - i
  {
    if i == |n.Children()| then []
    else if i + 1 == |n.Children()| then ExprTokens(n.Children()[i])
    else ExprTokens(n.Children()[i]) + [COMMA] + ListTokens(n, i + 1)
  }

  function OptionalTokens(n: ASTNode): seq<Token>
    requires IsOptionalExpr(n)
  {
    if n.Null? then [] else ExprTokens(n)
  }

  function ScalarOf(ty: Type): Type {
    match ty
    case BOOL_ARRAY => BOOL
    case NUMBER_ARRAY => Type.NUMBER
    case STRING_ARRAY => STRING
    case _ => ty
  }

  function VarTokens(n: ASTNode): seq<Token>
    requires IsSourceVar(n)
  {
    [VAR, IDENTIFIER(n.name), COLON, TYPE(ScalarOf(n.varType))] + SizeTokens(n) + InitTokens(n) + [SEMI_COLON]
  }

  function SizeTokens(n: ASTNode): seq<Token>
    requires IsSourceVar(n)
  {
    if n.size == 0 then [] else [LEFT_BRACKET, Token.NUMBER(n.size), RIGHT_BRACKET]
  }

  function InitTokens(n: ASTNode): seq<Token>
    requires IsSourceVar(n)
  {
    if n.init.Null? then [] else [ASSIGN] + ExprTokens(n.init)
  }

  function StmtTokens(n: ASTNode): seq<Token>
    requires IsSourceStmt(n)
    decreases n, 1
  {
    if n.VarDecl? then VarTokens(n)
    else if n.IfStmt? then [IF] + ExprTokens(n.cond) + BlockTokens(n.body)
    else if n.WhileStmt? then [WHILE] + ExprTokens(n.cond) + BlockTokens(n.body)
    else if n.PrintStmt? then [PRINT] + OptionalTokens(n.message) + [SEMI_COLON]
    else if n.ReturnStmt? then [RETURN] + OptionalTokens(n.result) + [SEMI_COLON]
    else if n.ScanStmt? then [SCAN, IDENTIFIER(n.input.name), SEMI_COLON]
    else if n.SleepStmt? then [SLEEP] + ExprTokens(n.count) + [SEMI_COLON]
    else ExprTokens(n) + [SEMI_COLON]
  }

  function BlockTokens(n: ASTNode): seq<Token>
    requires IsSourceBlock(n)
    decreases n, 0
  {
    [LEFT_BRACE] + StmtsTokens(n, 0) + [RIGHT_BRACE]
  }

  function StmtsTokens(n: ASTNode, i: nat): seq<Token>
    requires IsSourceBlock(n) && i <= |n.stmts|
    decreases n.stmts, |n.stmts| - i
  {
    if i == |n.stmts| then [] else StmtTokens(n.stmts[i]) + StmtsTokens(n, i + 1)
  }

  function ParamsTokens(params: seq<ASTNode>): seq<Token>
    requires forall i | 0 <= i < |params| :: IsSourceParam(params[i])
  {
    if params == [] then []
    else
      assert IsSourceParam(params[0]);
      [IDENTIFIER(params[0].name), COLON, TYPE(params[0].varType)]
      + (if |params| == 1 then [] else [COMMA] + ParamsTokens(params[1..]))
  }

  function DeclTokens(n: ASTNode): seq<Token>
    requires IsSourceDecl(n)
  {
    match n
    case VarDecl(_, _, _, _, _, _) => VarTokens(n)
    case FunctionDecl(name, returnType, params, body, _) =>
      [FUNCTION, IDENTIFIER(name), LEFT_PAREN] + ParamsTokens(params.parameters)
      + [RIGHT_PAREN, ARROW, TYPE(returnType)] + BlockTokens(body)
  }

  function DeclsTokens(decls: seq<ASTNode>): seq<Token>
    requires forall i | 0 <= i < |decls| :: IsSourceDecl(decls[i])
  {
    if decls == [] then [] else DeclTokens(decls[0]) + DeclsTokens(decls[1..])
  }

  function ProgramTokens(n: ASTNode): seq<Token>
    requires IsSource(n)
  {
    DeclsTokens(n.decls)
  }

  // ---------- what comes back ----------

  /** Every binary operator takes all that follows as its right operand. */
  function Graft(left: ASTNode, op: Operation, right: ASTNode): (r: ASTNode)
    ensures r.BinaryExpr?
  {
    match left
    case BinaryExpr(op', lhs, rhs, _) => BinaryExpr(op', lhs, Graft(rhs, op, right), DEFAULT_LOCATION)
    case _ => BinaryExpr(op, left, right, DEFAULT_LOCATION)
  }

  /** The tree with its operators nested to the right, as the parser nests them, and without its
      source locations. */
  function Reparsed(n: ASTNode): ASTNode
    decreases n
  {
    if n.BinaryExpr? then Graft(Reparsed(n.lhs), n.op, Reparsed(n.rhs))
    else Rebuilt(n, seq(|n.Children()|, i requires 0 <= i < |n.Children()| => Reparsed(n.Children()[i])))
  }

  /** The tree without its source locations. */
  function Erased(n: ASTNode): ASTNode
    decreases n
  {
    Rebuilt(n, seq(|n.Children()|, i requires 0 <= i < |n.Children()| => Erased(n.Children()[i])))
  }

  /** The node with other children and no location. */
  function Rebuilt(n: ASTNode, children: seq<ASTNode>): ASTNode
    requires |children| == |n.Children()|
  {
    var loc := DEFAULT_LOCATION;
    match n
    case Null => Null
    case ErrorNode => ErrorNode
    case ProgramDecl(_) => ProgramDecl(children)
    case FunctionDecl(name, returnType, _, _, _) => FunctionDecl(name, returnType, children[0], children[1], loc)
    case ParamVarDecls(_) => ParamVarDecls(children)
    case VarDecl(name, varType, isParam, size, _, _) => VarDecl(name, varType, isParam, size, Optional(children), loc)
    case ArrayExpr(_, _) => ArrayExpr(children, loc)
    case BinaryExpr(op, _, _, _) => BinaryExpr(op, children[0], children[1], loc)
    case BooleanExpr(flag, _) => BooleanExpr(flag, loc)
    case CallExpr(name, _, _) => CallExpr(name, children, loc)
    case IdentifierExpr(name, _) => IdentifierExpr(name, loc)
    case IndexedExpr(_, _, _) => IndexedExpr(children[0], children[1], loc)
    case NumberExpr(value, _) => NumberExpr(value, loc)
    case SpawnExpr(_, _) => SpawnExpr(children[0], loc)
    case StringExpr(text, _) => StringExpr(text, loc)
    case CompoundStmt(_) => CompoundStmt(children)
    case IfStmt(_, _, _) => IfStmt(children[0], children[1], loc)
    case PrintStmt(_, _) => PrintStmt(Optional(children), loc)
    case ReturnStmt(_, _) => ReturnStmt(Optional(children), loc)
    case ScanStmt(_, _) => ScanStmt(children[0], loc)
    case SleepStmt(_, _) => SleepStmt(children[0], loc)
    case SyncStmt(_) => SyncStmt(loc)
    case WhileStmt(_, _, _) => WhileStmt(children[0], children[1], loc)
  }

  function Optional(children: seq<ASTNode>): ASTNode {
    if children == [] then Null else children[0]
  }

  /** No binary operator has a binary left operand anywhere in the tree. */
  predicate LeftsAreSimple(n: ASTNode)
    decreases n
  {
    && (n.BinaryExpr? ==> !n.lhs.BinaryExpr?)
    && forall i | 0 <= i < |n.Children()| :: LeftsAreSimple(n.Children()[i])
  }

  lemma {:induction false} GraftAssociates(x: ASTNode, op: Operation, y: ASTNode, op': Operation, z: ASTNode)
    ensures Graft(Graft(x, op, y), op', z) == Graft(x, op, Graft(y, op', z))
    decreases x
  {
    if x.BinaryExpr? {
      GraftAssociates(x.rhs, op, y, op', z);
    }
  }
}
