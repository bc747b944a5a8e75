/** Reading back what the printer wrote gives the same tree exactly for the legible trees. */
module AstRoundTrip {
  import opened Ast
  import opened AstPrinter
  import opened AstReading

  // ---------- which trees ----------

  /** A text that stays on one line of the file and adds no tab to it. */
  predicate Plain(s: string) {
    '\t' !in s && '\n' !in s && '\r' !in s
  }

  predicate PlainOwn(n: ASTNode) {
    match n
    case FunctionDecl(name, _, _, _, _) => Plain(name)
    case VarDecl(name, _, _, _, _, _) => Plain(name)
    case CallExpr(name, _, _) => Plain(name)
    case IdentifierExpr(name, _) => Plain(name)
    case StringExpr(text, _) => Plain(text)
    case _ => true
  }

  /** A tree without null pointers and error nodes whose texts are all plain. */
  predicate Clean(n: ASTNode)
    decreases n
  {
    !n.Null? && !n.ErrorNode? && PlainOwn(n) &&
    forall i | 0 <= i < |n.Children()| :: Clean(n.Children()[i])
  }

  predicate IsWord(s: string) {
    StartsWithLetter(s) && ' ' !in s
  }

  predicate LegibleLoc(loc: SourceLocation) {
    loc == DEFAULT_LOCATION || (loc.line >= 1 && loc.column >= 1)
  }

  /** The expressions the reader can return. */
  predicate LegibleExpr(n: ASTNode)
    decreases n
  {
    match n
    case ErrorNode => true
    case ArrayExpr(elems, loc) =>
      LegibleLoc(loc) && elems != [] && forall i | 0 <= i < |elems| :: LegibleExpr(elems[i])
    case BinaryExpr(_, lhs, rhs, loc) => LegibleLoc(loc) && LegibleExpr(lhs) && LegibleExpr(rhs)
    case BooleanExpr(_, loc) => LegibleLoc(loc)
    case CallExpr(name, args, loc) =>
      LegibleLoc(loc) && IsWord(name) && forall i | 0 <= i < |args| :: LegibleExpr(args[i])
    case IdentifierExpr(name, loc) => LegibleLoc(loc) && IsWord(name)
    case NumberExpr(value, loc) => LegibleLoc(loc) && value >= 1
    case StringExpr(text, loc) => LegibleLoc(loc) && '\"' !in text
    case _ => false
  }

  predicate LegibleOptional(n: ASTNode) {
    n.Null? || LegibleExpr(n)
  }

  predicate LegibleVar(n: ASTNode, isParam: bool) {
    && n.VarDecl? && n.isParam == isParam && StartsWithLetter(n.name) && n.size >= 0
    && LegibleLoc(n.loc) && LegibleOptional(n.init)
  }

  /** The nodes the reader can put in a compound statement. */
  predicate LegibleStmt(n: ASTNode)
    decreases n
  {
    match n
    case VarDecl(_, _, _, _, _, _) => LegibleVar(n, false)
    case CompoundStmt(stmts) => forall i | 0 <= i < |stmts| :: LegibleStmt(stmts[i])
    case IfStmt(cond, body, loc) => LegibleLoc(loc) && LegibleExpr(cond) && body.CompoundStmt? && LegibleStmt(body)
    case WhileStmt(cond, body, loc) => LegibleLoc(loc) && LegibleExpr(cond) && body.CompoundStmt? && LegibleStmt(body)
    case PrintStmt(message, loc) => LegibleLoc(loc) && LegibleOptional(message)
    case ReturnStmt(result, loc) => LegibleLoc(loc) && LegibleOptional(result)
    case BinaryExpr(_, _, _, _) => LegibleExpr(n)
    case CallExpr(_, _, _) => LegibleExpr(n)
    case _ => false
  }

  predicate LegibleDecl(n: ASTNode) {
    match n
    case VarDecl(_, _, _, _, _, _) => LegibleVar(n, false)
    case FunctionDecl(name, _, params, body, loc) =>
      && LegibleLoc(loc) && IsWord(name)
      && params.ParamVarDecls?
      && (forall i | 0 <= i < |params.parameters| :: LegibleVar(params.parameters[i], true))
      && body.CompoundStmt? && LegibleStmt(body)
    case _ => false
  }

  predicate Legible(n: ASTNode) {
    n.ProgramDecl? && forall i | 0 <= i < |n.decls| :: LegibleDecl(n.decls[i])
  }

  // ---------- segments of the file ----------

  ghost predicate Segment(lines: seq<Line>, p: nat, part: seq<Line>) {
    p + |part| <= |lines| && lines[p..p + |part|] == part
  }

  lemma SplitSegment(lines: seq<Line>, p: nat, a: seq<Line>, b: seq<Line>)
    requires Segment(lines, p, a + b)
    ensures Segment(lines, p, a) && Segment(lines, p + |a|, b)
  {
    assert (a + b)[..|a|] == a && (a + b)[|a|..] == b;
    assert lines[p..p + |a|] == lines[p..p + |a + b|][..|a|];
    assert lines[p + |a|..p + |a| + |b|] == lines[p..p + |a + b|][|a|..];
  }

  lemma PlainHasNoTabs(s: string)
    requires '\t' !in s
    ensures TabsIn(s) == 0
  {
  }

  /** The segment of a node that has a handler: its own line, with as many tabs as its level,
      then its children. */
  lemma OwnLine(n: ASTNode, k: nat, lines: seq<Line>, p: nat)
    requires Clean(n) && OwnText(n) != [] && Segment(lines, p, Printed(n, k))
    ensures p < |lines| && lines[p] == Line(k, OwnText(n)[0]) && TabsAt(lines, p) == k
    ensures |OwnText(n)| == 1
    ensures Segment(lines, p + 1, PrintedFrom(n, 0, k + 1))
    ensures |Printed(n, k)| == 1 + |PrintedFrom(n, 0, k + 1)|
  {
    hide Clean, PrintedFrom;
    OneOwnLine(n, k);
    SplitSegment(lines, p, Indented(k, OwnText(n)), PrintedFrom(n, 0, k + 1));
    assert lines[p] == lines[p..p + 1][0];
  }

  lemma OneOwnLine(n: ASTNode, k: nat)
    requires Clean(n) && OwnText(n) != []
    ensures |OwnText(n)| == 1 && Tabs(Line(k, OwnText(n)[0])) == k
    ensures Printed(n, k) == Indented(k, OwnText(n)) + PrintedFrom(n, 0, k + 1)
  {
    hide Printed, PrintedFrom;
    OpenLines(n, k);
    match n {
      case FunctionDecl(name, _, _, _, _) => PlainHasNoTabs(name);
      case VarDecl(name, _, _, _, _, _) => PlainHasNoTabs(name);
      case CallExpr(name, _, _) => PlainHasNoTabs(name);
      case IdentifierExpr(name, _) => PlainHasNoTabs(name);
      case StringExpr(text, _) => PlainHasNoTabs(text);
      case _ =>
    }
  }

  /** Splitting off the lines of the `i`-th child. */
  lemma ChildLines(n: ASTNode, i: nat, k: nat, lines: seq<Line>, p: nat)
    requires i < |n.Children()| && Segment(lines, p, PrintedFrom(n, i, k))
    ensures Segment(lines, p, Printed(n.Children()[i], k))
    ensures Segment(lines, p + |Printed(n.Children()[i], k)|, PrintedFrom(n, i + 1, k))
    ensures |PrintedFrom(n, i, k)| == |Printed(n.Children()[i], k)| + |PrintedFrom(n, i + 1, k)|
  {
    assert PrintedFrom(n, i, k) == Printed(n.Children()[i], k) + PrintedFrom(n, i + 1, k);
    SplitSegment(lines, p, Printed(n.Children()[i], k), PrintedFrom(n, i + 1, k));
  }

  /** After the lines of the children from `i` on comes a line that is no deeper than `k`, and
      when there is such a child the current line is exactly at level `k`. */
  lemma ChildTabs(n: ASTNode, i: nat, k: nat, lines: seq<Line>, p: nat)
    requires Clean(n) && i <= |n.Children()| && Segment(lines, p, PrintedFrom(n, i, k))
    requires forall j | i <= j < |n.Children()| :: OwnText(n.Children()[j]) != []
    ensures i < |n.Children()| ==> TabsAt(lines, p) == k
    ensures i == |n.Children()| ==> PrintedFrom(n, i, k) == []
  {
    hide Printed, OwnText, ASTNode.Children, LegibleExpr;
    if i < |n.Children()| {
      ChildLines(n, i, k, lines, p);
      OwnLine(n.Children()[i], k, lines, p);
    } else {
      OpenLines(n, k);
    }
  }

  lemma CleanChild(n: ASTNode, i: nat)
    requires Clean(n) && i < |n.Children()|
    ensures Clean(n.Children()[i])
  {
  }

  lemma LegibleHasHandler(n: ASTNode)
    requires Clean(n)
    ensures LegibleExpr(n) || LegibleStmt(n) || LegibleDecl(n) ==> OwnText(n) != []
  {
  }

  // ---------- expressions ----------

  /** Reading an expression from its own lines gives it back and stops just behind them,
      provided the next line is not deeper than the expression. */
  lemma {:induction false} ExprRoundTrip(n: ASTNode, k: nat, lines: seq<Line>, p: nat)
    requires Clean(n) && LegibleExpr(n) && k >= 1
    requires Segment(lines, p, Printed(n, k)) && TabsAt(lines, p + |Printed(n, k)|) <= k
    ensures ReadExpr(lines, p) == Got(n, p + |Printed(n, k)|)
    decreases n, |n.Children()| + 1, 1
  {
    hide *;
    if n.BinaryExpr? {
      BinaryRoundTrip(n, k, lines, p);
    } else if n.CallExpr? {
      CallRoundTrip(n, k, lines, p);
    } else if n.ArrayExpr? {
      ArrayRoundTrip(n, k, lines, p);
    } else {
      LeafRoundTrip(n, k, lines, p);
    }
  }

  lemma LeafRoundTrip(n: ASTNode, k: nat, lines: seq<Line>, p: nat)
    requires Clean(n) && LegibleExpr(n) && k >= 1 && Segment(lines, p, Printed(n, k))
    requires !n.BinaryExpr? && !n.CallExpr? && !n.ArrayExpr?
    ensures ReadExpr(lines, p) == Got(n, p + |Printed(n, k)|)
  {
    hide Printed, PrintedFrom, Clean, Tabs;
    LegibleHasHandler(n);
    OwnLine(n, k, lines, p);
    OpenLines(n, k + 1);
  }

  lemma {:induction false} CallRoundTrip(n: ASTNode, k: nat, lines: seq<Line>, p: nat)
    requires n.CallExpr? && Clean(n) && LegibleExpr(n) && k >= 1
    requires Segment(lines, p, Printed(n, k)) && TabsAt(lines, p + |Printed(n, k)|) <= k
    ensures ReadExpr(lines, p) == Got(n, p + |Printed(n, k)|)
    decreases n, |n.Children()| + 1, 0
  {
    hide Printed, PrintedFrom, Clean, Tabs, ReadArgs;
    OwnLine(n, k, lines, p);
    ArgsRoundTrip(n, 0, k, lines, p + 1);
    assert n.args[0..] == n.args;
  }

  lemma {:induction false} ArrayRoundTrip(n: ASTNode, k: nat, lines: seq<Line>, p: nat)
    requires n.ArrayExpr? && Clean(n) && LegibleExpr(n) && k >= 1
    requires Segment(lines, p, Printed(n, k)) && TabsAt(lines, p + |Printed(n, k)|) <= k
    ensures ReadExpr(lines, p) == Got(n, p + |Printed(n, k)|)
    decreases n, |n.Children()| + 1, 0
  {
    hide Printed, PrintedFrom, Clean, Tabs, ReadElems;
    OwnLine(n, k, lines, p);
    CleanChild(n, 0);
    LegibleHasHandler(n.elems[0]);
    ChildLines(n, 0, k + 1, lines, p + 1);
    OwnLine(n.elems[0], k + 1, lines, p + 1);
    ElemsRoundTrip(n, 0, k, lines, p + 1);
    assert n.elems[0..] == n.elems;
  }

  /** A binary expression from the results of reading its operands. */
  lemma BinaryIsRead(lines: seq<Line>, p: nat, lhs: ASTNode, mid: nat, rhs: ASTNode, next: nat)
    requires p < |lines| && lines[p].indent > 0 && lines[p].text.BinaryText?
    requires ReadExpr(lines, p + 1) == Got(lhs, mid) && ReadExpr(lines, mid) == Got(rhs, next)
    ensures var text := lines[p].text;
            ReadExpr(lines, p) == Got(BinaryExpr(text.op, lhs, rhs, ReadLocation(text.loc)), next)
  {
    hide ReadElems, ReadArgs;
  }

  lemma {:induction false} BinaryRoundTrip(n: ASTNode, k: nat, lines: seq<Line>, p: nat)
    requires n.BinaryExpr? && Clean(n) && LegibleExpr(n) && k >= 1
    requires Segment(lines, p, Printed(n, k)) && TabsAt(lines, p + |Printed(n, k)|) <= k
    ensures ReadExpr(lines, p) == Got(n, p + |Printed(n, k)|)
    decreases n, |n.Children()|
  {
    hide Printed, PrintedFrom, Clean, Tabs, ReadExpr, TabsAt;
    OwnLine(n, k, lines, p);
    CleanChild(n, 0);
    CleanChild(n, 1);
    LegibleHasHandler(n.rhs);
    ChildLines(n, 0, k + 1, lines, p + 1);
    var mid := p + 1 + |Printed(n.lhs, k + 1)|;
    ChildLines(n, 1, k + 1, lines, mid);
    var next := mid + |Printed(n.rhs, k + 1)|;
    OpenLines(n, k + 1);
    assert next == p + |Printed(n, k)|;
    OwnLine(n.rhs, k + 1, lines, mid);
    ExprRoundTrip(n.lhs, k + 1, lines, p + 1);
    ExprRoundTrip(n.rhs, k + 1, lines, mid);
    BinaryIsRead(lines, p, n.lhs, mid, n.rhs, next);
  }

  lemma {:induction false} ArgsRoundTrip(n: ASTNode, i: nat, k: nat, lines: seq<Line>, p: nat)
    requires n.CallExpr? && Clean(n) && LegibleExpr(n) && i <= |n.args|
    requires Segment(lines, p, PrintedFrom(n, i, k + 1)) && TabsAt(lines, p + |PrintedFrom(n, i, k + 1)|) <= k
    ensures ReadArgs(lines, p, k) == Got(n.args[i..], p + |PrintedFrom(n, i, k + 1)|)
    decreases n, |n.args| - i
  {
    hide Printed, PrintedFrom, Clean, Tabs, ReadExpr;
    forall j | 0 <= j < |n.args| ensures Clean(n.args[j]) && OwnText(n.args[j]) != [] {
      CleanChild(n, j);
      LegibleHasHandler(n.args[j]);
    }
    ChildTabs(n, i, k + 1, lines, p);
    if i < |n.args| {
      ChildLines(n, i, k + 1, lines, p);
      var q := p + |Printed(n.args[i], k + 1)|;
      ChildTabs(n, i + 1, k + 1, lines, q);
      ExprRoundTrip(n.args[i], k + 1, lines, p);
      ArgsRoundTrip(n, i + 1, k, lines, q);
      assert [n.args[i]] + n.args[i + 1..] == n.args[i..];
    }
  }

  lemma {:induction false} ElemsRoundTrip(n: ASTNode, i: nat, k: nat, lines: seq<Line>, p: nat)
    requires n.ArrayExpr? && Clean(n) && LegibleExpr(n) && i <= |n.elems|
    requires Segment(lines, p, PrintedFrom(n, i, k + 1)) && TabsAt(lines, p + |PrintedFrom(n, i, k + 1)|) <= k
    ensures ReadElems(lines, p, k + 1) == Got(n.elems[i..], p + |PrintedFrom(n, i, k + 1)|)
    decreases n, |n.elems| - i
  {
    hide Printed, PrintedFrom, Clean, Tabs, ReadExpr;
    forall j | 0 <= j < |n.elems| ensures Clean(n.elems[j]) && OwnText(n.elems[j]) != [] {
      CleanChild(n, j);
      LegibleHasHandler(n.elems[j]);
    }
    ChildTabs(n, i, k + 1, lines, p);
    if i < |n.elems| {
      ChildLines(n, i, k + 1, lines, p);
      var q := p + |Printed(n.elems[i], k + 1)|;
      ChildTabs(n, i + 1, k + 1, lines, q);
      OwnLine(n.elems[i], k + 1, lines, p);
      ExprRoundTrip(n.elems[i], k + 1, lines, p);
      ElemsRoundTrip(n, i + 1, k, lines, q);
      assert [n.elems[i]] + n.elems[i + 1..] == n.elems[i..];
    }
  }

  // ---------- statements ----------

  lemma OptionalRoundTrip(n: ASTNode, child: ASTNode, k: nat, lines: seq<Line>, p: nat)
    requires Clean(n) && OwnText(n) != [] && n.Children() == Present(child) && LegibleOptional(child)
    requires Segment(lines, p, Printed(n, k)) && TabsAt(lines, p + |Printed(n, k)|) <= k
    ensures ReadOptional(lines, p) == Got(child, p + |Printed(n, k)|)
  {
    hide Printed, PrintedFrom, Clean, Tabs, ReadExpr, OwnText, LegibleExpr;
    OwnLine(n, k, lines, p);
    OpenLines(n, k + 1);
    if !child.Null? {
      CleanChild(n, 0);
      LegibleHasHandler(child);
      ChildLines(n, 0, k + 1, lines, p + 1);
      OwnLine(child, k + 1, lines, p + 1);
      ExprRoundTrip(child, k + 1, lines, p + 1);
    }
  }

  lemma VarRoundTrip(n: ASTNode, isParam: bool, k: nat, lines: seq<Line>, p: nat)
    requires Clean(n) && LegibleVar(n, isParam) && k >= 1
    requires Segment(lines, p, Printed(n, k)) && TabsAt(lines, p + |Printed(n, k)|) <= k
    ensures p < |lines| && MatchesVar(lines[p], isParam)
    ensures ReadVarDecl(lines, p, isParam) == Got(n, p + |Printed(n, k)|)
  {
    hide Printed, PrintedFrom, Clean, Tabs, ReadOptional;
    OwnLine(n, k, lines, p);
    OptionalRoundTrip(n, n.init, k, lines, p);
  }

  /** Reading one statement of a compound statement from its own lines. */
  lemma {:induction false} StmtRoundTrip(n: ASTNode, k: nat, lines: seq<Line>, p: nat)
    requires Clean(n) && LegibleStmt(n) && k >= 1
    requires Segment(lines, p, Printed(n, k)) && TabsAt(lines, p + |Printed(n, k)|) <= k
    ensures p < |lines| && ReadChild(lines, p) == Got(n, p + |Printed(n, k)|)
    ensures n.CompoundStmt? ==> ReadCompound(lines, p) == Got(n, p + |Printed(n, k)|)
    decreases n, |n.Children()| + 2
  {
    hide Printed, PrintedFrom, Clean, Tabs, ReadExpr, ReadOptional, ReadGuarded, ReadVarDecl, ReadStmts;
    LegibleHasHandler(n);
    OwnLine(n, k, lines, p);
    match n {
      case VarDecl(_, _, _, _, _, _) => VarRoundTrip(n, false, k, lines, p);
      case CompoundStmt(stmts) =>
        StmtsRoundTrip(n, 0, k, lines, p + 1);
        assert stmts[0..] == stmts;
        assert ReadCompound(lines, p) == Got(n, p + |Printed(n, k)|);
        assert ReadStmt(lines, p) == ReadCompound(lines, p);
      case IfStmt(cond, body, loc) => GuardedRoundTrip(n, cond, body, k, lines, p);
      case WhileStmt(cond, body, loc) => GuardedRoundTrip(n, cond, body, k, lines, p);
      case PrintStmt(message, loc) => OptionalRoundTrip(n, message, k, lines, p);
      case ReturnStmt(result, loc) => OptionalRoundTrip(n, result, k, lines, p);
      case BinaryExpr(_, _, _, _) => ExprRoundTrip(n, k, lines, p);
      case CallExpr(_, _, _) => ExprRoundTrip(n, k, lines, p);
    }
  }

  lemma {:induction false} GuardedRoundTrip(n: ASTNode, cond: ASTNode, body: ASTNode, k: nat, lines: seq<Line>, p: nat)
    requires Clean(n) && OwnText(n) != [] && n.Children() == [cond, body] && body < n && cond < n
    requires LegibleExpr(cond) && body.CompoundStmt? && LegibleStmt(body)
    requires Segment(lines, p, Printed(n, k)) && TabsAt(lines, p + |Printed(n, k)|) <= k
    ensures p < |lines| && ReadGuarded(lines, p + 1) == Got((cond, body), p + |Printed(n, k)|)
    decreases n, |n.Children()| + 1
  {
    hide Printed, PrintedFrom, Clean, Tabs, ReadExpr, ReadCompound, OwnText, LegibleExpr, LegibleStmt;
    OwnLine(n, k, lines, p);
    CleanChild(n, 0);
    CleanChild(n, 1);
    LegibleHasHandler(body);
    ChildLines(n, 0, k + 1, lines, p + 1);
    var mid := p + 1 + |Printed(cond, k + 1)|;
    ChildLines(n, 1, k + 1, lines, mid);
    OpenLines(n, k + 1);
    OwnLine(body, k + 1, lines, mid);
    ExprRoundTrip(cond, k + 1, lines, p + 1);
    StmtRoundTrip(body, k + 1, lines, mid);
  }

  lemma {:induction false} StmtsRoundTrip(n: ASTNode, i: nat, k: nat, lines: seq<Line>, p: nat)
    requires n.CompoundStmt? && Clean(n) && LegibleStmt(n) && i <= |n.stmts|
    requires Segment(lines, p, PrintedFrom(n, i, k + 1)) && TabsAt(lines, p + |PrintedFrom(n, i, k + 1)|) <= k
    ensures ReadStmts(lines, p, k) == Got(n.stmts[i..], p + |PrintedFrom(n, i, k + 1)|)
    decreases n, |n.stmts| - i
  {
    hide Printed, PrintedFrom, Clean, Tabs, ReadChild;
    forall j | 0 <= j < |n.stmts| ensures Clean(n.stmts[j]) && OwnText(n.stmts[j]) != [] {
      CleanChild(n, j);
      LegibleHasHandler(n.stmts[j]);
    }
    ChildTabs(n, i, k + 1, lines, p);
    if i < |n.stmts| {
      ChildLines(n, i, k + 1, lines, p);
      var q := p + |Printed(n.stmts[i], k + 1)|;
      ChildTabs(n, i + 1, k + 1, lines, q);
      StmtRoundTrip(n.stmts[i], k + 1, lines, p);
      StmtsRoundTrip(n, i + 1, k, lines, q);
      assert [n.stmts[i]] + n.stmts[i + 1..] == n.stmts[i..];
    }
  }

  // ---------- declarations ----------

  /** The parameters, printed one level deeper than the body, are all read as parameters, and
      reading stops on the line of the body. */
  lemma {:induction false} ParamsRoundTrip(n: ASTNode, i: nat, k: nat, lines: seq<Line>, p: nat)
    requires n.ParamVarDecls? && Clean(n) && i <= |n.parameters| && k >= 1
    requires forall j | 0 <= j < |n.parameters| :: LegibleVar(n.parameters[j], true)
    requires Segment(lines, p, PrintedFrom(n, i, k + 1))
    requires var next := p + |PrintedFrom(n, i, k + 1)|;
             TabsAt(lines, next) <= k && !MatchesVar(LineAt(lines, next), true)
    ensures ReadParams(lines, p) == Got(n.parameters[i..], p + |PrintedFrom(n, i, k + 1)|)
    decreases |n.parameters| - i
  {
    hide Printed, PrintedFrom, Clean, Tabs, ReadVarDecl, MatchesVar, ASTNode.Children, LegibleExpr;
    hide StartsWithLetter;
    assert n.Children() == n.parameters by { ChildrenOfParams(n); }
    forall j | 0 <= j < |n.parameters| ensures Clean(n.parameters[j]) && OwnText(n.parameters[j]) != [] {
      CleanChild(n, j);
    }
    ChildTabs(n, i, k + 1, lines, p);
    if i < |n.parameters| {
      ChildLines(n, i, k + 1, lines, p);
      var q := p + |Printed(n.parameters[i], k + 1)|;
      ChildTabs(n, i + 1, k + 1, lines, q);
      VarRoundTrip(n.parameters[i], true, k + 1, lines, p);
      ParamsRoundTrip(n, i + 1, k, lines, q);
      assert [n.parameters[i]] + n.parameters[i + 1..] == n.parameters[i..];
    }
  }

  lemma ChildrenOfParams(n: ASTNode)
    requires n.ParamVarDecls?
    ensures n.Children() == n.parameters && (!n.Null? && OwnText(n) == [])
  {
  }

  lemma FunctionRoundTrip(n: ASTNode, k: nat, lines: seq<Line>, p: nat)
    requires n.FunctionDecl? && Clean(n) && LegibleDecl(n) && k >= 1
    requires Segment(lines, p, Printed(n, k)) && TabsAt(lines, p + |Printed(n, k)|) <= k
    ensures p < |lines| && MatchesFunction(lines[p])
    ensures ReadFuncDecl(lines, p) == Got(n, p + |Printed(n, k)|)
  {
    hide Printed, PrintedFrom, Clean, Tabs, ReadParams, ReadCompound, LegibleVar, LegibleStmt;
    OwnLine(n, k, lines, p);
    CleanChild(n, 0);
    CleanChild(n, 1);
    ChildLines(n, 0, k + 1, lines, p + 1);
    var mid := p + 1 + |Printed(n.params, k + 1)|;
    ChildLines(n, 1, k + 1, lines, mid);
    OpenLines(n, k + 1);
    OpenLines(n.params, k + 1);
    OwnLine(n.body, k + 1, lines, mid);
    assert Printed(n.params, k + 1) == PrintedFrom(n.params, 0, k + 2);
    ParamsRoundTrip(n.params, 0, k + 1, lines, p + 1);
    StmtRoundTrip(n.body, k + 1, lines, mid);
  }

  lemma DeclRoundTrip(n: ASTNode, k: nat, lines: seq<Line>, p: nat)
    requires Clean(n) && LegibleDecl(n) && k >= 1
    requires Segment(lines, p, Printed(n, k)) && TabsAt(lines, p + |Printed(n, k)|) <= k
    ensures p < |lines| && ReadDecl(lines, p) == Got(n, p + |Printed(n, k)|)
  {
    hide Printed, PrintedFrom, Clean, Tabs, ReadFuncDecl, ReadVarDecl;
    if n.FunctionDecl? {
      FunctionRoundTrip(n, k, lines, p);
    } else {
      VarRoundTrip(n, false, k, lines, p);
      assert !MatchesFunction(lines[p]);
    }
  }

  lemma DeclsAreRead(lines: seq<Line>, p: nat, decl: ASTNode, q: nat)
    requires p < |lines| && ReadDecl(lines, p) == Got(decl, q)
    ensures ReadDecls(lines, p) == Prepend([decl], ReadDecls(lines, q))
  {
    hide ReadDecl;
  }

  lemma NoDeclsAreRead(lines: seq<Line>)
    ensures ReadDecls(lines, |lines|) == Got([], |lines|)
  {
  }

  lemma {:induction false} DeclsRoundTrip(n: ASTNode, i: nat, lines: seq<Line>, p: nat)
    requires n.ProgramDecl? && Clean(n) && Legible(n) && i <= |n.decls|
    requires Segment(lines, p, PrintedFrom(n, i, 1)) && p + |PrintedFrom(n, i, 1)| == |lines|
    ensures ReadDecls(lines, p) == Got(n.decls[i..], |lines|)
    decreases |n.decls| - i
  {
    hide Printed, PrintedFrom, Clean, Tabs, ReadDecl, ReadDecls, LegibleDecl;
    forall j | 0 <= j < |n.decls| ensures Clean(n.decls[j]) && OwnText(n.decls[j]) != [] {
      CleanChild(n, j);
      LegibleHasHandler(n.decls[j]);
    }
    EndHasNoTabs(lines);
    OpenLines(n, 1);
    if i < |n.decls| {
      ChildLines(n, i, 1, lines, p);
      var q := p + |Printed(n.decls[i], 1)|;
      ChildTabs(n, i + 1, 1, lines, q);
      DeclRoundTrip(n.decls[i], 1, lines, p);
      DeclsRoundTrip(n, i + 1, lines, q);
      DeclsAreRead(lines, p, n.decls[i], q);
      assert [n.decls[i]] + n.decls[i + 1..] == n.decls[i..];
    } else {
      NoDeclsAreRead(lines);
      assert n.decls[i..] == [];
    }
  }

  lemma LegibleRoundTrips(n: ASTNode)
    requires Clean(n) && Legible(n)
    ensures ReadTree(Printed(n, 0)) == Got(n, |Printed(n, 0)|)
  {
    hide Printed, PrintedFrom, Clean, Tabs, ReadDecls, LegibleDecl;
    var lines := Printed(n, 0);
    OwnLine(n, 0, lines, 0);
    DeclsRoundTrip(n, 0, lines, 1);
  }

  // ---------- the image of the reader ----------

  /** Whatever the lines, an expression the reader returns is legible. */
  lemma {:induction false} ReadExprIsLegible(lines: seq<Line>, p: nat)
    requires p <= |lines| && ReadExpr(lines, p).Got?
    ensures LegibleExpr(ReadExpr(lines, p).value)
    decreases |lines| - p, 0
  {
    hide Tabs, ReadElems, ReadArgs;
    var line := LineAt(lines, p);
    var q := Advance(lines, p);
    if line.indent > 0 {
      match line.text {
        case ArrayText(_) => ReadElemsIsLegible(lines, q, TabsAt(lines, q));
        case BinaryText(_, _) =>
          ReadExprIsLegible(lines, q);
          ReadExprIsLegible(lines, ReadExpr(lines, q).next);
        case CallText(_, _) =>
          if MatchesCall(line) {
            ReadArgsIsLegible(lines, q, Tabs(line));
          }
        case _ =>
      }
    }
  }

  lemma {:induction false} ReadElemsIsLegible(lines: seq<Line>, p: nat, elemTabs: nat)
    requires p <= |lines| && ReadElems(lines, p, elemTabs).Got?
    ensures forall n :: n in ReadElems(lines, p, elemTabs).value ==> LegibleExpr(n)
    decreases |lines| - p, 1
  {
    hide Tabs, ReadExpr, LegibleExpr;
    if TabsAt(lines, p) >= elemTabs {
      ReadExprIsLegible(lines, p);
      ReadElemsIsLegible(lines, ReadExpr(lines, p).next, elemTabs);
    }
  }

  lemma {:induction false} ReadArgsIsLegible(lines: seq<Line>, p: nat, callTabs: nat)
    requires p <= |lines| && ReadArgs(lines, p, callTabs).Got?
    ensures forall n :: n in ReadArgs(lines, p, callTabs).value ==> LegibleExpr(n)
    decreases |lines| - p, 1
  {
    hide ReadExpr, LegibleExpr;
    if TabsAt(lines, p) > callTabs {
      ReadExprIsLegible(lines, p);
      ReadArgsIsLegible(lines, ReadExpr(lines, p).next, callTabs);
    }
  }

  lemma ReadVarIsLegible(lines: seq<Line>, p: nat, isParam: bool)
    requires p < |lines| && MatchesVar(lines[p], isParam) && ReadVarDecl(lines, p, isParam).Got?
    ensures LegibleVar(ReadVarDecl(lines, p, isParam).value, isParam)
  {
    hide ReadExpr, LegibleExpr, Tabs;
    if TabsAt(lines, p) < TabsAt(lines, p + 1) {
      ReadExprIsLegible(lines, p + 1);
    }
  }

  lemma {:induction false} ReadCompoundIsLegible(lines: seq<Line>, p: nat)
    requires p <= |lines| && ReadCompound(lines, p).Got?
    ensures ReadCompound(lines, p).value.CompoundStmt? && LegibleStmt(ReadCompound(lines, p).value)
    decreases |lines| - p, 0
  {
    hide ReadStmts, Tabs;
    if p < |lines| {
      ReadStmtsIsLegible(lines, p + 1, TabsAt(lines, p));
    }
  }

  lemma {:induction false} ReadStmtsIsLegible(lines: seq<Line>, p: nat, topTabs: nat)
    requires p <= |lines| && ReadStmts(lines, p, topTabs).Got?
    ensures forall n :: n in ReadStmts(lines, p, topTabs).value ==> LegibleStmt(n)
    decreases |lines| - p, 3
  {
    hide ReadChild, LegibleStmt;
    if TabsAt(lines, p) > topTabs {
      ReadChildIsLegible(lines, p);
      ReadStmtsIsLegible(lines, ReadChild(lines, p).next, topTabs);
    }
  }

  lemma {:induction false} ReadChildIsLegible(lines: seq<Line>, p: nat)
    requires p < |lines| && ReadChild(lines, p).Got?
    ensures LegibleStmt(ReadChild(lines, p).value)
    decreases |lines| - p, 2
  {
    hide ReadGuarded, ReadCompound, Tabs;
    if MatchesVar(lines[p], false) {
      ReadVarIsLegible(lines, p, false);
    } else if MatchesStmt(lines[p]) {
      ReadStmtIsLegible(lines, p);
    } else {
      ReadExprIsLegible(lines, p);
    }
  }

  lemma {:induction false} ReadStmtIsLegible(lines: seq<Line>, p: nat)
    requires p < |lines| && MatchesStmt(lines[p]) && ReadStmt(lines, p).Got?
    ensures LegibleStmt(ReadStmt(lines, p).value)
    decreases |lines| - p, 1
  {
    hide ReadExpr, ReadCompound, Tabs;
    var text := lines[p].text;
    if text.CompoundText? {
      ReadCompoundIsLegible(lines, p);
    } else if text.PrintText? || text.ReturnText? {
      ReadOptionalIsLegible(lines, p);
    } else if text.IfText? || text.WhileText? {
      ReadExprIsLegible(lines, p + 1);
      ReadCompoundIsLegible(lines, ReadExpr(lines, p + 1).next);
    }
  }

  lemma ReadOptionalIsLegible(lines: seq<Line>, p: nat)
    requires p < |lines| && ReadOptional(lines, p).Got?
    ensures LegibleOptional(ReadOptional(lines, p).value)
  {
    hide ReadExpr, LegibleExpr, Tabs;
    if TabsAt(lines, p) < TabsAt(lines, p + 1) {
      ReadExprIsLegible(lines, p + 1);
    }
  }

  lemma {:induction false} ReadParamsIsLegible(lines: seq<Line>, p: nat)
    requires p <= |lines| && ReadParams(lines, p).Got?
    ensures forall n :: n in ReadParams(lines, p).value ==> LegibleVar(n, true)
    decreases |lines| - p
  {
    hide ReadVarDecl, LegibleVar;
    if MatchesVar(LineAt(lines, p), true) {
      ReadVarIsLegible(lines, p, true);
      ReadParamsIsLegible(lines, ReadVarDecl(lines, p, true).next);
    }
  }

  lemma ReadDeclIsLegible(lines: seq<Line>, p: nat)
    requires p < |lines| && ReadDecl(lines, p).Got?
    ensures LegibleDecl(ReadDecl(lines, p).value)
  {
    hide ReadVarDecl, ReadParams, ReadCompound, LegibleStmt, LegibleVar;
    if MatchesFunction(lines[p]) {
      ReadParamsIsLegible(lines, p + 1);
      ReadCompoundIsLegible(lines, ReadParams(lines, p + 1).next);
    } else {
      ReadVarIsLegible(lines, p, false);
      ReadVarIsVar(lines, p, false);
    }
  }

  lemma ReadVarIsVar(lines: seq<Line>, p: nat, isParam: bool)
    requires p < |lines| && MatchesVar(lines[p], isParam) && ReadVarDecl(lines, p, isParam).Got?
    ensures ReadVarDecl(lines, p, isParam).value.VarDecl?
  {
  }

  lemma {:induction false} ReadDeclsIsLegible(lines: seq<Line>, p: nat)
    requires p <= |lines| && ReadDecls(lines, p).Got?
    ensures forall n :: n in ReadDecls(lines, p).value ==> LegibleDecl(n)
    decreases |lines| - p
  {
    hide ReadDecl, LegibleDecl;
    if p < |lines| {
      ReadDeclIsLegible(lines, p);
      ReadDeclsIsLegible(lines, ReadDecl(lines, p).next);
    }
  }

  /** Whatever the file, a tree the reader returns is legible or null. */
  lemma ReadTreeIsLegible(lines: seq<Line>)
    requires ReadTree(lines).Got?
    ensures ReadTree(lines).value.Null? || Legible(ReadTree(lines).value)
  {
    hide ReadDecls, LegibleDecl;
    if LineAt(lines, 0) == Line(0, ProgramText) {
      ReadDeclsIsLegible(lines, 1);
    }
  }

  // ---------- the round trip ----------

  /** For every clean tree, reading what was printed gives the tree back, source locations
      included, if and only if the tree is legible. */
  lemma RoundTripExactly(n: ASTNode)
    requires Clean(n)
    ensures (ReadTree(Printed(n, 0)).Got? && ReadTree(Printed(n, 0)).value == n) <==> Legible(n)
  {
    hide Printed, Legible, ReadTree;
    if Legible(n) {
      LegibleRoundTrips(n);
    }
    if ReadTree(Printed(n, 0)).Got? {
      ReadTreeIsLegible(Printed(n, 0));
    }
  }

  /** Printing a tree that was read from any file and reading it again changes nothing, as long
      as it holds no error node and its texts stay on their lines. */
  lemma RereadIsStable(lines: seq<Line>)
    requires ReadTree(lines).Got? && Clean(ReadTree(lines).value)
    ensures ReadTree(Printed(ReadTree(lines).value, 0)).Got?
    ensures ReadTree(Printed(ReadTree(lines).value, 0)).value == ReadTree(lines).value
  {
    hide Printed, Legible, ReadTree;
    ReadTreeIsLegible(lines);
    LegibleRoundTrips(ReadTree(lines).value);
  }

  // ---------- inputs the round trip loses ----------

  /** `var n: Int = 0;` is clean, but no number line with a leading zero is recognised. */
  lemma ZeroIsLost(loc: SourceLocation)
    ensures var root := ProgramDecl([VarDecl("n", NUMBER, false, 0, NumberExpr(0, loc), loc)]);
            Clean(root) && !(ReadTree(Printed(root, 0)).Got? && ReadTree(Printed(root, 0)).value == root)
  {
    var zero := NumberExpr(0, loc);
    var decl := VarDecl("n", NUMBER, false, 0, zero, loc);
    var root := ProgramDecl([decl]);
    assert decl.Children() == [zero] && root.Children() == [decl] && zero.Children() == [];
    assert Clean(zero) && Clean(decl) && Clean(root);
    assert !LegibleVar(decl, false) && root.decls[0] == decl;
    RoundTripExactly(root);
  }

  /** `fn f() -> Void { scan x; }` */
  function ScanTree(loc: SourceLocation): ASTNode {
    var body := CompoundStmt([ScanStmt(IdentifierExpr("x", loc), loc)]);
    ProgramDecl([FunctionDecl("f", VOID, ParamVarDecls([]), body, loc)])
  }

  /** The tree is clean, but the reader looks for the operand of a scan on the scan's own line. */
  lemma ScanIsLost(loc: SourceLocation)
    ensures Clean(ScanTree(loc))
    ensures !(ReadTree(Printed(ScanTree(loc), 0)).Got? && ReadTree(Printed(ScanTree(loc), 0)).value == ScanTree(loc))
  {
    var root := ScanTree(loc);
    var f := root.decls[0];
    var scan := f.body.stmts[0];
    assert scan.input.Children() == [] && scan.Children() == [scan.input] && f.body.Children() == [scan];
    assert f.params.Children() == [] && f.Children() == [f.params, f.body] && root.Children() == [f];
    assert Clean(scan.input) && Clean(scan) && Clean(f.body) && Clean(f.params) && Clean(f) && Clean(root);
    hide Clean;
    assert !LegibleStmt(scan);
    assert !LegibleStmt(f.body);
    assert !LegibleDecl(f) && root.decls[0] == f;
    RoundTripExactly(root);
  }

  function TabText(loc: SourceLocation): ASTNode { StringExpr("\t", loc) }

  function TabArray(loc: SourceLocation): ASTNode { ArrayExpr([TabText(loc), NumberExpr(1, loc)], loc) }

  /** The tree of `var a: String[2] = {"<tab>", 1};`. */
  function TabTree(loc: SourceLocation): ASTNode {
    ProgramDecl([VarDecl("a", STRING_ARRAY, false, 2, TabArray(loc), loc)])
  }

  function TabLines(loc: SourceLocation): seq<Line> {
    [Line(0, ProgramText), Line(1, VarText(false, "a", STRING_ARRAY, 2, loc)),
     Line(2, ArrayText(loc)), Line(3, StringText("\t", loc)), Line(3, NumberText(1, loc))]
  }

  lemma TabArrayLines(loc: SourceLocation)
    ensures var lines := TabLines(loc); Printed(TabArray(loc), 2) == [lines[2], lines[3], lines[4]]
  {
    var arr, lines := TabArray(loc), TabLines(loc);
    assert Printed(arr.elems[0], 3) == [lines[3]] && Printed(arr.elems[1], 3) == [lines[4]];
    assert PrintedFrom(arr, 2, 3) == [];
    assert PrintedFrom(arr, 1, 3) == [lines[4]];
    assert PrintedFrom(arr, 0, 3) == [lines[3], lines[4]];
  }

  lemma TabTreeLines(loc: SourceLocation)
    ensures Printed(TabTree(loc), 0) == TabLines(loc)
  {
    var root, lines := TabTree(loc), TabLines(loc);
    var decl := root.decls[0];
    TabArrayLines(loc);
    hide TabArray;
    assert decl.Children() == [TabArray(loc)] && PrintedFrom(decl, 1, 2) == [];
    assert Printed(decl, 1) == [lines[1]] + [lines[2], lines[3], lines[4]];
    assert PrintedFrom(root, 1, 1) == [];
  }

  /** A tab inside a string counts as indentation: the array ends after its first element, and
      the line of the second starts no declaration. */
  lemma TabInStringIsLost(loc: SourceLocation)
    ensures ReadTree(Printed(TabTree(loc), 0)) == NoTree
  {
    hide Printed;
    TabTreeLines(loc);
    var lines := TabLines(loc);
    assert Tabs(lines[3]) == 4 && Tabs(lines[4]) == 3;
    assert ReadElems(lines, 4, 4) == Got([], 4);
    assert ReadElems(lines, 3, 4) == Got([StringExpr("\t", ReadLocation(loc))], 4);
    assert ReadExpr(lines, 2).Got? && ReadExpr(lines, 2).next == 4;
    assert ReadDecl(lines, 1).Got? && ReadDecl(lines, 1).next == 4;
    assert ReadDecls(lines, 4) == NoTree;
    assert ReadDecls(lines, 1) == NoTree;
  }
}
