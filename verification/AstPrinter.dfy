/** The AST printer: one line per node that has a handler, indented by its depth. */
module AstPrinter {
  import opened Ast

  /** What a line says after its indentation. `BlankText` is the empty line a reader sees at
      the end of the file; the printer never writes it. */
  datatype LineText =
    | BlankText
    | ProgramText
    | FunctionText(name: string, returnType: Type, loc: SourceLocation)
    | VarText(isParam: bool, name: string, varType: Type, size: int, loc: SourceLocation)
    | ArrayText(loc: SourceLocation)
    | BinaryText(op: Operation, loc: SourceLocation)
    | BooleanText(flag: bool, loc: SourceLocation)
    | CallText(name: string, loc: SourceLocation)
    | IdentifierText(name: string, loc: SourceLocation)
    | NumberText(value: int, loc: SourceLocation)
    | StringText(text: string, loc: SourceLocation)
    | CompoundText
    | IfText(loc: SourceLocation)
    | PrintText(loc: SourceLocation)
    | ReturnText(loc: SourceLocation)
    | ScanText(loc: SourceLocation)
    | WhileText(loc: SourceLocation)

  datatype Line = Line(indent: nat, text: LineText)

  function TabsIn(s: string): nat {
    if s == [] then 0 else (if s[0] == '\t' then 1 else 0) + TabsIn(s[1..])
  }

  /** The number of tab characters anywhere in the line, which is what the reader counts. */
  function Tabs(line: Line): nat {
    line.indent +
    match line.text
    case FunctionText(name, _, _) => TabsIn(name)
    case VarText(_, name, _, _, _) => TabsIn(name)
    case CallText(name, _) => TabsIn(name)
    case IdentifierText(name, _) => TabsIn(name)
    case StringText(text, _) => TabsIn(text)
    case _ => 0
  }

  /** The text the handler of a node writes; empty for the kinds that have no handler. */
  function OwnText(n: ASTNode): (texts: seq<LineText>) {
    match n
    case ProgramDecl(_) => [ProgramText]
    case FunctionDecl(name, returnType, _, _, loc) => [FunctionText(name, returnType, loc)]
    case VarDecl(name, varType, isParam, size, _, loc) => [VarText(isParam, name, varType, size, loc)]
    case ArrayExpr(_, loc) => [ArrayText(loc)]
    case BinaryExpr(op, _, _, loc) => [BinaryText(op, loc)]
    case BooleanExpr(flag, loc) => [BooleanText(flag, loc)]
    case CallExpr(name, _, loc) => [CallText(name, loc)]
    case IdentifierExpr(name, loc) => [IdentifierText(name, loc)]
    case NumberExpr(value, loc) => [NumberText(value, loc)]
    case StringExpr(text, loc) => [StringText(text, loc)]
    case CompoundStmt(_) => [CompoundText]
    case IfStmt(_, _, loc) => [IfText(loc)]
    case PrintStmt(_, loc) => [PrintText(loc)]
    case ReturnStmt(_, loc) => [ReturnText(loc)]
    case ScanStmt(_, loc) => [ScanText(loc)]
    case WhileStmt(_, _, loc) => [WhileText(loc)]
    // ParamVarDecls, IndexedExpr, SpawnExpr, SleepStmt, SyncStmt and ErrorNode are silent
    case _ => []
  }

  function Indented(level: nat, texts: seq<LineText>): (lines: seq<Line>)
    ensures |lines| == |texts|
  {
    seq(|texts|, i requires 0 <= i < |texts| => Line(level, texts[i]))
  }

  /** The lines printed for the tree rooted at `n`, whose own line is indented by `level`. A
      silent node still moves its children one level deeper. */
  function Printed(n: ASTNode, level: nat): seq<Line>
    decreases n, |n.Children()| + 1
  {
    if n.Null? then [] else Indented(level, OwnText(n)) + PrintedFrom(n, 0, level + 1)
  }

  /** The lines printed for the children of `n` from the `i`-th on. */
  function PrintedFrom(n: ASTNode, i: nat, level: nat): seq<Line>
    requires i <= |n.Children()|
    decreases n, |n.Children()| - i
  {
    if i == |n.Children()| then []
    else Printed(n.Children()[i], level) + PrintedFrom(n, i + 1, level)
  }

  lemma OpenLines(n: ASTNode, level: nat)
    ensures n.Null? ==> Printed(n, level) == []
    ensures !n.Null? ==> Printed(n, level) == Indented(level, OwnText(n)) + PrintedFrom(n, 0, level + 1)
    ensures PrintedFrom(n, |n.Children()|, level) == []
  {
  }

  lemma StepLines(n: ASTNode, i: nat, level: nat, before: seq<Line>)
    requires i < |n.Children()|
    ensures before + PrintedFrom(n, i, level)
         == (before + Printed(n.Children()[i], level)) + PrintedFrom(n, i + 1, level)
  {
  }

  class ASTPrinter {
    var mCurrentLevel: nat
    var mStream: seq<Line>

    constructor ()
      ensures mCurrentLevel == 0 && mStream == []
    {
      mCurrentLevel := 0;
      mStream := [];
    }

    method Run(root: ASTNode)
      modifies this
      ensures mCurrentLevel == old(mCurrentLevel)
      ensures mStream == old(mStream) + Printed(root, old(mCurrentLevel))
    {
      VisitPreOrder(root);
    }

    method VisitPreOrder(root: ASTNode)
      modifies this
      ensures mCurrentLevel == old(mCurrentLevel)
      ensures mStream == old(mStream) + Printed(root, old(mCurrentLevel))
      decreases root
    {
      hide *;
      OpenLines(root, mCurrentLevel);
      OpenLines(root, mCurrentLevel + 1);
      if root.Null? {
        return;
      }
      ghost var level := mCurrentLevel;
      ghost var target := mStream + Printed(root, level);
      mCurrentLevel := mCurrentLevel + 1;
      DispatchNode(root);
      var children := root.Children();
      assert mStream + PrintedFrom(root, 0, level + 1) == target;
      var i := 0;
      while i < |children|
        invariant 0 <= i <= |children|
        invariant mCurrentLevel == level + 1
        invariant mStream + PrintedFrom(root, i, level + 1) == target
      {
        StepLines(root, i, level + 1, mStream);
        VisitPreOrder(children[i]);
        i := i + 1;
      }
      assert PrintedFrom(root, i, level + 1) == [];
      mCurrentLevel := mCurrentLevel - 1;
    }

    /** Runs the node's handler, if it has one. */
    method DispatchNode(node: ASTNode)
      requires mCurrentLevel > 0
      modifies `mStream
      ensures mStream == old(mStream) + Indented(mCurrentLevel - 1, OwnText(node))
    {
      match node
      case ProgramDecl(_) => WriteLine(ProgramText);
      case FunctionDecl(name, returnType, _, _, loc) => WriteLine(FunctionText(name, returnType, loc));
      case VarDecl(name, varType, isParam, size, _, loc) => WriteLine(VarText(isParam, name, varType, size, loc));
      case ArrayExpr(_, loc) => WriteLine(ArrayText(loc));
      case BinaryExpr(op, _, _, loc) => WriteLine(BinaryText(op, loc));
      case BooleanExpr(flag, loc) => WriteLine(BooleanText(flag, loc));
      case CallExpr(name, _, loc) => WriteLine(CallText(name, loc));
      case IdentifierExpr(name, loc) => WriteLine(IdentifierText(name, loc));
      case NumberExpr(value, loc) => WriteLine(NumberText(value, loc));
      case StringExpr(text, loc) => WriteLine(StringText(text, loc));
      case CompoundStmt(_) => WriteLine(CompoundText);
      case IfStmt(_, _, loc) => WriteLine(IfText(loc));
      case PrintStmt(_, loc) => WriteLine(PrintText(loc));
      case ReturnStmt(_, loc) => WriteLine(ReturnText(loc));
      case ScanStmt(_, loc) => WriteLine(ScanText(loc));
      case WhileStmt(_, _, loc) => WriteLine(WhileText(loc));
      case _ =>
    }

    /** What every handler does with its text. */
    method WriteLine(text: LineText)
      requires mCurrentLevel > 0
      modifies `mStream
      ensures mStream == old(mStream) + Indented(mCurrentLevel - 1, [text])
    {
      var indent := Indent();
      mStream := mStream + [Line(indent, text)];
    }

    method Indent() returns (tabs: nat)
      requires mCurrentLevel > 0
      ensures tabs == mCurrentLevel - 1
    {
      tabs := 0;
      while tabs < mCurrentLevel - 1
        invariant tabs <= mCurrentLevel - 1
      {
        tabs := tabs + 1;
      }
    }
  }
}
