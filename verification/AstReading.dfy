/** What the AST reader does, routine by routine, as functions of the lines of the file and
    the index of the current line. It rebuilds a tree from its lines by comparing tab counts. */
module AstReading {
  import opened Ast
  import opened AstPrinter
  import opened Characters

  /** Where a routine of the reader ends: with a value and the index of the line it leaves
      current, or with no tree at all. The latter is a loop that no longer advances, or the
      assertion on the operand of a scan statement. */
  datatype Reading<+T> = Got(value: T, next: nat) | NoTree

  // ---------- lines and what the regular expressions accept ----------

  const END_OF_FILE := Line(0, BlankText)

  function LineAt(lines: seq<Line>, p: nat): Line {
    if p < |lines| then lines[p] else END_OF_FILE
  }

  function TabsAt(lines: seq<Line>, p: nat): nat {
    Tabs(LineAt(lines, p))
  }

  /** Reading one more line at the end of the file leaves the empty line current. */
  function Advance(lines: seq<Line>, p: nat): (q: nat)
    requires p <= |lines|
    ensures p <= q <= |lines| && (p < |lines| ==> q == p + 1)
  {
    if p < |lines| then p + 1 else p
  }

  predicate StartsWithLetter(s: string) {
    s != [] && IsAlpha(s[0])
  }

  /** The longest prefix of `s` without the character `c`. */
  function UpTo(s: string, c: char): (prefix: string)
    ensures prefix <= s && c !in prefix
    ensures c !in s <==> prefix == s
    ensures prefix != s ==> s[|prefix|] == c
  {
    if s == [] || s[0] == c then [] else [s[0]] + UpTo(s[1..], c)
  }

  predicate MatchesFunction(line: Line) {
    && line.indent > 0 && line.text.FunctionText?
    && StartsWithLetter(line.text.name) && ' ' !in line.text.name
  }

  predicate MatchesVar(line: Line, isParam: bool) {
    && line.indent > 0 && line.text.VarText? && line.text.isParam == isParam
    && StartsWithLetter(line.text.name) && line.text.size >= 0
  }

  predicate MatchesBinary(line: Line) {
    line.indent > 0 && line.text.BinaryText?
  }

  predicate MatchesCall(line: Line) {
    line.indent > 0 && line.text.CallText? && StartsWithLetter(line.text.name)
  }

  predicate MatchesIdentifier(line: Line) {
    line.indent > 0 && line.text.IdentifierText? && StartsWithLetter(line.text.name)
  }

  predicate MatchesNumber(line: Line) {
    line.indent > 0 && line.text.NumberText? && line.text.value >= 1
  }

  /** One of the six statement kinds a compound statement hands to `ReadStmt`. */
  predicate MatchesStmt(line: Line) {
    && line.indent > 0
    && match line.text
       case CompoundText => true
       case IfText(_) => true
       case PrintText(_) => true
       case ReturnText(_) => true
       case ScanText(_) => true
       case WhileText(_) => true
       case _ => false
  }

  /** The location regular expression wants two numbers without a leading zero. */
  function ReadLocation(loc: SourceLocation): SourceLocation {
    if loc.line >= 1 && loc.column >= 1 then loc else DEFAULT_LOCATION
  }

  // ---------- expressions ----------

  function ReadExpr(lines: seq<Line>, p: nat): (r: Reading<ASTNode>)
    requires p <= |lines|
    ensures r.Got? ==> p <= r.next <= |lines| && (p < |lines| ==> p < r.next)
    decreases |lines| - p, 0
  {
    var line := LineAt(lines, p);
    var q := Advance(lines, p);
    if line.indent == 0 then Got(ErrorNode, q)
    else match line.text
      case ArrayText(loc) =>
        (match ReadElems(lines, q, TabsAt(lines, q))
         case Got(elems, next) => Got(ArrayExpr(elems, ReadLocation(loc)), next)
         case NoTree => NoTree)
      case BinaryText(op, loc) =>
        (match ReadExpr(lines, q)
         case Got(lhs, mid) =>
           (match ReadExpr(lines, mid)
            case Got(rhs, next) => Got(BinaryExpr(op, lhs, rhs, ReadLocation(loc)), next)
            case NoTree => NoTree)
         case NoTree => NoTree)
      case BooleanText(flag, loc) => Got(BooleanExpr(flag, ReadLocation(loc)), q)
      case CallText(name, loc) =>
        if !MatchesCall(line) then Got(ErrorNode, q)
        else (match ReadArgs(lines, q, Tabs(line))
              case Got(args, next) => Got(CallExpr(UpTo(name, ' '), args, ReadLocation(loc)), next)
              case NoTree => NoTree)
      case IdentifierText(name, loc) =>
        if !MatchesIdentifier(line) then Got(ErrorNode, q)
        else Got(IdentifierExpr(UpTo(name, ' '), ReadLocation(loc)), q)
      case NumberText(value, loc) =>
        if !MatchesNumber(line) then Got(ErrorNode, q) else Got(NumberExpr(value, ReadLocation(loc)), q)
      case StringText(text, loc) => Got(StringExpr(UpTo(text, '\"'), ReadLocation(loc)), q)
      case _ => Got(ErrorNode, q)
  }

  /** The elements of an array: every expression from here on whose line has at least as many
      tabs as the first one. At the end of the file that first line has none, and the loop
      reads empty lines for ever. */
  function ReadElems(lines: seq<Line>, p: nat, elemTabs: nat): (r: Reading<seq<ASTNode>>)
    requires p <= |lines|
    ensures r.Got? ==> p <= r.next <= |lines|
    ensures r.Got? && elemTabs <= TabsAt(lines, p) ==> r.value != []
    decreases |lines| - p, 1
  {
    if TabsAt(lines, p) < elemTabs then Got([], p)
    else if p == |lines| then NoTree
    else match ReadExpr(lines, p)
      case Got(elem, q) => Prepend([elem], ReadElems(lines, q, elemTabs))
      case NoTree => NoTree
  }

  /** The arguments of a call: every expression from here on that is deeper than the call. */
  function ReadArgs(lines: seq<Line>, p: nat, callTabs: nat): (r: Reading<seq<ASTNode>>)
    requires p <= |lines|
    ensures r.Got? ==> p <= r.next <= |lines|
    decreases |lines| - p, 1
  {
    if TabsAt(lines, p) <= callTabs then Got([], p)
    else match ReadExpr(lines, p)
      case Got(arg, q) => Prepend([arg], ReadArgs(lines, q, callTabs))
      case NoTree => NoTree
  }

  function Prepend(ns: seq<ASTNode>, rest: Reading<seq<ASTNode>>): (r: Reading<seq<ASTNode>>)
    ensures r.Got? <==> rest.Got?
    ensures r.Got? ==> r.next == rest.next && r.value == ns + rest.value
    ensures r.Got? && rest.value == [] ==> r.value == ns
  {
    match rest
    case Got(ms, next) => Got(ns + ms, next)
    case NoTree => NoTree
  }

  lemma PrependTwice(ns: seq<ASTNode>, ms: seq<ASTNode>, rest: Reading<seq<ASTNode>>)
    ensures Prepend(ns, Prepend(ms, rest)) == Prepend(ns + ms, rest)
    ensures Prepend([], rest) == rest
  {
    if rest.Got? {
      assert ns + (ms + rest.value) == ns + ms + rest.value;
      assert [] + rest.value == rest.value;
    }
  }

  /** The optional child of the node on line `p`: an expression if the next line is deeper. */
  function ReadOptional(lines: seq<Line>, p: nat): (r: Reading<ASTNode>)
    requires p < |lines|
    ensures r.Got? ==> p < r.next <= |lines|
  {
    if TabsAt(lines, p) < TabsAt(lines, p + 1) then ReadExpr(lines, p + 1) else Got(Null, p + 1)
  }

  // ---------- statements ----------

  function ReadVarDecl(lines: seq<Line>, p: nat, isParam: bool): (r: Reading<ASTNode>)
    requires p < |lines| && lines[p].text.VarText?
    ensures r.Got? ==> p < r.next <= |lines|
  {
    var VarText(_, name, varType, size, loc) := lines[p].text;
    match ReadOptional(lines, p)
    case Got(init, next) => Got(VarDecl(name, varType, isParam, size, init, ReadLocation(loc)), next)
    case NoTree => NoTree
  }

  function ReadCompound(lines: seq<Line>, p: nat): (r: Reading<ASTNode>)
    requires p <= |lines|
    ensures r.Got? ==> p <= r.next <= |lines| && (p < |lines| ==> p < r.next)
    decreases |lines| - p, 0
  {
    if p == |lines| then Got(CompoundStmt([]), p)
    else match ReadStmts(lines, p + 1, TabsAt(lines, p))
      case Got(stmts, next) => Got(CompoundStmt(stmts), next)
      case NoTree => NoTree
  }

  /** The statements of a compound statement: everything deeper than its own line. A line that
      starts none of them is never passed. */
  function ReadStmts(lines: seq<Line>, p: nat, topTabs: nat): (r: Reading<seq<ASTNode>>)
    requires p <= |lines|
    ensures r.Got? ==> p <= r.next <= |lines|
    decreases |lines| - p, 3
  {
    if TabsAt(lines, p) <= topTabs then Got([], p)
    else match ReadChild(lines, p)
      case Got(stmt, q) => Prepend([stmt], ReadStmts(lines, q, topTabs))
      case NoTree => NoTree
  }

  function ReadChild(lines: seq<Line>, p: nat): (r: Reading<ASTNode>)
    requires p < |lines|
    ensures r.Got? ==> p < r.next <= |lines|
    decreases |lines| - p, 2
  {
    if MatchesVar(lines[p], false) then ReadVarDecl(lines, p, false)
    else if MatchesStmt(lines[p]) then ReadStmt(lines, p)
    else if MatchesBinary(lines[p]) || MatchesCall(lines[p]) then ReadExpr(lines, p)
    else NoTree
  }

  function ReadStmt(lines: seq<Line>, p: nat): (r: Reading<ASTNode>)
    requires p < |lines|
    ensures r.Got? ==> p < r.next <= |lines|
    decreases |lines| - p, 1
  {
    match lines[p].text
    case CompoundText => ReadCompound(lines, p)
    case IfText(loc) =>
      (match ReadGuarded(lines, p + 1)
       case Got((cond, body), next) => Got(IfStmt(cond, body, ReadLocation(loc)), next)
       case NoTree => NoTree)
    case WhileText(loc) =>
      (match ReadGuarded(lines, p + 1)
       case Got((cond, body), next) => Got(WhileStmt(cond, body, ReadLocation(loc)), next)
       case NoTree => NoTree)
    case PrintText(loc) =>
      (match ReadOptional(lines, p)
       case Got(message, next) => Got(PrintStmt(message, ReadLocation(loc)), next)
       case NoTree => NoTree)
    case ReturnText(loc) =>
      (match ReadOptional(lines, p)
       case Got(result, next) => Got(ReturnStmt(result, ReadLocation(loc)), next)
       case NoTree => NoTree)
    // The operand of a scan is read from the scan's own line, which is no identifier
    case ScanText(_) => NoTree
    case _ => Got(ErrorNode, p + 1)
  }

  /** The condition and the body of an if or while statement. */
  function ReadGuarded(lines: seq<Line>, p: nat): (r: Reading<(ASTNode, ASTNode)>)
    requires p <= |lines|
    ensures r.Got? ==> p <= r.next <= |lines|
    decreases |lines| - p, 1
  {
    match ReadExpr(lines, p)
    case Got(cond, q) =>
      (match ReadCompound(lines, q)
       case Got(body, next) => Got((cond, body), next)
       case NoTree => NoTree)
    case NoTree => NoTree
  }

  // ---------- declarations ----------

  function ReadParams(lines: seq<Line>, p: nat): (r: Reading<seq<ASTNode>>)
    requires p <= |lines|
    ensures r.Got? ==> p <= r.next <= |lines|
    decreases |lines| - p
  {
    if !MatchesVar(LineAt(lines, p), true) then Got([], p)
    else match ReadVarDecl(lines, p, true)
      case Got(param, q) => Prepend([param], ReadParams(lines, q))
      case NoTree => NoTree
  }

  function ReadFuncDecl(lines: seq<Line>, p: nat): (r: Reading<ASTNode>)
    requires p < |lines| && lines[p].text.FunctionText?
    ensures r.Got? ==> p < r.next <= |lines|
  {
    var FunctionText(name, returnType, loc) := lines[p].text;
    match ReadParams(lines, p + 1)
    case Got(params, q) =>
      (match ReadCompound(lines, q)
       case Got(body, next) => Got(FunctionDecl(name, returnType, ParamVarDecls(params), body, ReadLocation(loc)), next)
       case NoTree => NoTree)
    case NoTree => NoTree
  }

  /** The top-level loop. On a line that starts no declaration the stream is closed, which
      does not make it reach its end: the loop never stops. */
  function ReadDecls(lines: seq<Line>, p: nat): (r: Reading<seq<ASTNode>>)
    requires p <= |lines|
    ensures r.Got? ==> r.next == |lines|
    decreases |lines| - p
  {
    if p == |lines| then Got([], p)
    else match ReadDecl(lines, p)
      case Got(decl, q) => Prepend([decl], ReadDecls(lines, q))
      case NoTree => NoTree
  }

  function ReadDecl(lines: seq<Line>, p: nat): (r: Reading<ASTNode>)
    requires p < |lines|
    ensures r.Got? ==> p < r.next <= |lines|
  {
    if MatchesFunction(lines[p]) then ReadFuncDecl(lines, p)
    else if MatchesVar(lines[p], false) then ReadVarDecl(lines, p, false)
    else NoTree
  }

  /** The whole file. A file that does not start with a program line gives a null tree. */
  function ReadTree(lines: seq<Line>): Reading<ASTNode> {
    if LineAt(lines, 0) != Line(0, ProgramText) then Got(Null, 0)
    else match ReadDecls(lines, 1)
      case Got(decls, next) => Got(ProgramDecl(decls), next)
      case NoTree => NoTree
  }

  /** What a routine hands back, read off its two results and the line it leaves current. */
  function Outcome<T>(ok: bool, value: T, next: nat): Reading<T> {
    if ok then Got(value, next) else NoTree
  }

  lemma VarLineIsInside(lines: seq<Line>, p: nat, isParam: bool)
    requires MatchesVar(LineAt(lines, p), isParam)
    ensures p < |lines| && lines[p].text.VarText?
  {
  }

  lemma EndHasNoTabs(lines: seq<Line>)
    ensures TabsAt(lines, |lines|) == 0
  {
  }
}
