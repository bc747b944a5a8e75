/** What the lines of the printer tell, of every tree and not only of those that can be read back. */
module PrintedLines {
  import opened Ast
  import opened AstPrinter

  // ---------- one line ----------

  /** The kinds of nodes that have a handler. */
  predicate HasLine(n: ASTNode) {
    || n.ProgramDecl? || n.FunctionDecl? || n.VarDecl? || n.ArrayExpr? || n.BinaryExpr? || n.BooleanExpr?
    || n.CallExpr? || n.IdentifierExpr? || n.NumberExpr? || n.StringExpr? || n.CompoundStmt? || n.IfStmt?
    || n.PrintStmt? || n.ReturnStmt? || n.ScanStmt? || n.WhileStmt?
  }

  /** The node without its children. */
  function Bare(n: ASTNode): ASTNode {
    match n
    case ProgramDecl(_) => ProgramDecl([])
    case FunctionDecl(name, returnType, _, _, loc) => FunctionDecl(name, returnType, Null, Null, loc)
    case ParamVarDecls(_) => ParamVarDecls([])
    case VarDecl(name, varType, isParam, size, _, loc) => VarDecl(name, varType, isParam, size, Null, loc)
    case ArrayExpr(_, loc) => ArrayExpr([], loc)
    case BinaryExpr(op, _, _, loc) => BinaryExpr(op, Null, Null, loc)
    case CallExpr(name, _, loc) => CallExpr(name, [], loc)
    case IndexedExpr(_, _, loc) => IndexedExpr(Null, Null, loc)
    case SpawnExpr(_, loc) => SpawnExpr(Null, loc)
    case CompoundStmt(_) => CompoundStmt([])
    case IfStmt(_, _, loc) => IfStmt(Null, Null, loc)
    case PrintStmt(_, loc) => PrintStmt(Null, loc)
    case ReturnStmt(_, loc) => ReturnStmt(Null, loc)
    case ScanStmt(_, loc) => ScanStmt(Null, loc)
    case SleepStmt(_, loc) => SleepStmt(Null, loc)
    case WhileStmt(_, _, loc) => WhileStmt(Null, Null, loc)
    case _ => n
  }

  /** The node that a line stands for, without its children. */
  function NodeOf(text: LineText): ASTNode {
    match text
    case BlankText => Null
    case ProgramText => ProgramDecl([])
    case FunctionText(name, returnType, loc) => FunctionDecl(name, returnType, Null, Null, loc)
    case VarText(isParam, name, varType, size, loc) => VarDecl(name, varType, isParam, size, Null, loc)
    case ArrayText(loc) => ArrayExpr([], loc)
    case BinaryText(op, loc) => BinaryExpr(op, Null, Null, loc)
    case BooleanText(flag, loc) => BooleanExpr(flag, loc)
    case CallText(name, loc) => CallExpr(name, [], loc)
    case IdentifierText(name, loc) => IdentifierExpr(name, loc)
    case NumberText(value, loc) => NumberExpr(value, loc)
    case StringText(text, loc) => StringExpr(text, loc)
    case CompoundText => CompoundStmt([])
    case IfText(loc) => IfStmt(Null, Null, loc)
    case PrintText(loc) => PrintStmt(Null, loc)
    case ReturnText(loc) => ReturnStmt(Null, loc)
    case ScanText(loc) => ScanStmt(Null, loc)
    case WhileText(loc) => WhileStmt(Null, Null, loc)
  }

  /** The first line printed for a node with a handler gives back its kind and its own fields, at the
      indentation of its level; a node without one gets no line of its own. */
  lemma FirstLineTells(n: ASTNode, level: nat)
    ensures HasLine(n) ==>
              && Printed(n, level) != [] && Printed(n, level)[0].indent == level
              && NodeOf(Printed(n, level)[0].text) == Bare(n)
              && Printed(n, level)[1..] == PrintedFrom(n, 0, level + 1)
    ensures !HasLine(n) && !n.Null? ==> Printed(n, level) == PrintedFrom(n, 0, level + 1)
  {
    OpenLines(n, level);
    OwnLine(n);
    hide Printed, PrintedFrom, OwnText, Bare, NodeOf;
  }

  lemma OwnLine(n: ASTNode)
    ensures HasLine(n) ==> |OwnText(n)| == 1 && NodeOf(OwnText(n)[0]) == Bare(n)
    ensures !HasLine(n) ==> OwnText(n) == []
  {
  }

  // ---------- all lines ----------

  /** Every node but the lists of parameters has a line. */
  predicate AllShown(n: ASTNode)
    decreases n
  {
    if n.FunctionDecl? then
      && n.params.ParamVarDecls? && AllShown(n.body)
      && forall i | 0 <= i < |n.params.parameters| :: AllShown(n.params.parameters[i])
    else HasLine(n) && forall i | 0 <= i < |n.Children()| :: AllShown(n.Children()[i])
  }

  predicate ChildrenShown(n: ASTNode) {
    forall i | 0 <= i < |n.Children()| :: AllShown(n.Children()[i])
  }

  /** Nothing follows, or a line that is indented by less than `level`. */
  predicate Outside(rest: seq<Line>, level: nat) {
    rest == [] || rest[0].indent < level
  }

  lemma ShownHasLine(n: ASTNode)
    requires AllShown(n)
    ensures HasLine(n) && !n.Null?
    ensures n.FunctionDecl? ==> n.params.ParamVarDecls? && ChildrenShown(n.params) && AllShown(n.body)
    ensures !n.FunctionDecl? ==> ChildrenShown(n)
  {
  }

  /** The node and its children make the tree. */
  lemma TreeByParts(n: ASTNode, m: ASTNode)
    requires HasLine(n) && HasLine(m) && Bare(n) == Bare(m) && !n.FunctionDecl?
    requires n.Children() == m.Children()
    ensures n == m
  {
    hide AllShown;
    if n.VarDecl? {
      PresentTells(n.init, m.init);
    } else if n.PrintStmt? {
      PresentTells(n.message, m.message);
    } else if n.ReturnStmt? {
      PresentTells(n.result, m.result);
    } else if n.BinaryExpr? {
      PairTells(n.lhs, n.rhs, m.lhs, m.rhs);
    } else if n.IfStmt? || n.WhileStmt? {
      PairTells(n.cond, n.body, m.cond, m.body);
    } else if n.ScanStmt? {
      assert [n.input][0] == [m.input][0];
    }
  }

  lemma PresentTells(a: ASTNode, b: ASTNode)
    requires Present(a) == Present(b)
    ensures a == b
  {
    if !a.Null? && !b.Null? {
      assert [a][0] == [b][0];
    }
  }

  lemma PairTells(a: ASTNode, b: ASTNode, c: ASTNode, d: ASTNode)
    requires [a, b] == [c, d]
    ensures a == c && b == d
  {
    assert [a, b][0] == [c, d][0] && [a, b][1] == [c, d][1];
  }

  /** The lines of a tree, whatever follows them less deep, determine it and where they end. */
  lemma {:induction false} LinesDetermine(n: ASTNode, m: ASTNode, level: nat, s: seq<Line>, t: seq<Line>)
    requires AllShown(n) && AllShown(m) && Outside(s, level + 1) && Outside(t, level + 1)
    requires Printed(n, level) + s == Printed(m, level) + t
    ensures n == m && s == t
    decreases n, |n.Children()| + 1
  {
    ShownHasLine(n);
    ShownHasLine(m);
    FirstLineTells(n, level);
    FirstLineTells(m, level);
    SameFirst(Printed(n, level), s, Printed(m, level), t);
    hide Printed, PrintedFrom, HasLine, NodeOf;
    SameKind(n, m);
    if n.FunctionDecl? {
      FunctionLinesDetermine(n, m, level, s, t);
    } else {
      hide AllShown, Bare;
      assert Rest(n, 0, level + 1, s) == Rest(m, 0, level + 1, t);
      ForestDetermines(n, m, 0, 0, level + 1, s, t);
      assert n.Children()[0..] == n.Children() && m.Children()[0..] == m.Children();
      TreeByParts(n, m);
    }
  }

  lemma SameKind(n: ASTNode, m: ASTNode)
    requires Bare(n) == Bare(m)
    ensures n.FunctionDecl? <==> m.FunctionDecl?
    ensures n.FunctionDecl? ==> n.name == m.name && n.returnType == m.returnType && n.loc == m.loc
  {
  }

  lemma SameFirst(a: seq<Line>, s: seq<Line>, b: seq<Line>, t: seq<Line>)
    requires a != [] && b != [] && a + s == b + t
    ensures a[0] == b[0] && a[1..] + s == b[1..] + t
  {
    assert a[0] == (a + s)[0] && b[0] == (b + t)[0];
    assert a[1..] + s == (a + s)[1..] && b[1..] + t == (b + t)[1..];
  }

  /** A function: its parameters, one level deeper than usual, then its body. */
  lemma {:induction false} FunctionLinesDetermine(n: ASTNode, m: ASTNode, level: nat, s: seq<Line>, t: seq<Line>)
    requires n.FunctionDecl? && m.FunctionDecl? && Bare(n) == Bare(m) && AllShown(n) && AllShown(m)
    requires Outside(s, level + 1) && Outside(t, level + 1)
    requires PrintedFrom(n, 0, level + 1) + s == PrintedFrom(m, 0, level + 1) + t
    ensures n == m && s == t
    decreases n, |n.Children()|
  {
    ShownHasLine(n);
    ShownHasLine(m);
    var s', t' := Printed(n.body, level + 1) + s, Printed(m.body, level + 1) + t;
    FunctionLines(n, level + 1, s);
    FunctionLines(m, level + 1, t);
    hide Printed, PrintedFrom, AllShown, Rest;
    ForestDetermines(n.params, m.params, 0, 0, level + 2, s', t');
    assert n.params.Children()[0..] == n.params.parameters && m.params.Children()[0..] == m.params.parameters;
    LinesDetermine(n.body, m.body, level + 1, s, t);
    SameKind(n, m);
  }

  lemma FunctionLines(n: ASTNode, level: nat, s: seq<Line>)
    requires n.FunctionDecl? && n.params.ParamVarDecls? && AllShown(n.body)
    ensures PrintedFrom(n, 0, level) + s == Rest(n.params, 0, level + 1, Printed(n.body, level) + s)
    ensures Outside(Printed(n.body, level) + s, level + 1)
  {
    assert n.Children()[0] == n.params && n.Children()[1] == n.body && |n.Children()| == 2;
    FirstLineTells(n.params, level);
    ShownHasLine(n.body);
    FirstLineTells(n.body, level);
    RestSplits(n, 0, level, s);
    RestSplits(n, 1, level, s);
    OpenLines(n, level);
    hide Printed, PrintedFrom, AllShown;
    assert [] + s == s;
  }

  /** The lines of the children from the `i`-th on, and what follows them. */
  function Rest(n: ASTNode, i: nat, level: nat, s: seq<Line>): seq<Line>
    requires i <= |n.Children()|
  {
    PrintedFrom(n, i, level) + s
  }

  /** Trees side by side, from the `i`-th and `j`-th child on. */
  lemma {:induction false} ForestDetermines(n: ASTNode, m: ASTNode, i: nat, j: nat, level: nat, s: seq<Line>, t: seq<Line>)
    requires ChildrenShown(n) && ChildrenShown(m) && i <= |n.Children()| && j <= |m.Children()|
    requires Outside(s, level) && Outside(t, level) && Rest(n, i, level, s) == Rest(m, j, level, t)
    ensures n.Children()[i..] == m.Children()[j..] && s == t
    decreases n, |n.Children()| - i
  {
    hide Printed, AllShown, ChildrenShown, Rest, ASTNode.Children;
    ForestStep(n, i, level, s);
    ForestStep(m, j, level, t);
    if i < |n.Children()| && j < |m.Children()| {
      LinesDetermine(n.Children()[i], m.Children()[j], level, Rest(n, i + 1, level, s), Rest(m, j + 1, level, t));
      ForestDetermines(n, m, i + 1, j + 1, level, s, t);
      FirstOfRest(n.Children(), i);
      FirstOfRest(m.Children(), j);
    }
  }

  lemma FirstOfRest(ns: seq<ASTNode>, i: nat)
    requires i < |ns|
    ensures ns[i..] == [ns[i]] + ns[i + 1..]
  {
  }

  /** Each tree of a forest starts at its level, and so does what is left of it. */
  lemma ForestStep(n: ASTNode, i: nat, level: nat, s: seq<Line>)
    requires ChildrenShown(n) && i <= |n.Children()| && Outside(s, level)
    ensures i == |n.Children()| ==> Rest(n, i, level, s) == s && n.Children()[i..] == []
    ensures i < |n.Children()| ==>
              && AllShown(n.Children()[i])
              && Rest(n, i, level, s) == Printed(n.Children()[i], level) + Rest(n, i + 1, level, s)
              && Rest(n, i, level, s) != [] && Rest(n, i, level, s)[0].indent == level
              && Outside(Rest(n, i + 1, level, s), level + 1)
  {
    hide Printed, PrintedFrom, AllShown;
    StartsAt(n, i, level);
    if i < |n.Children()| {
      StepLines(n, i, level, []);
      StartsAt(n, i + 1, level);
      RestSplits(n, i, level, s);
    }
  }

  lemma FromSplits(n: ASTNode, i: nat, level: nat)
    requires i < |n.Children()|
    ensures PrintedFrom(n, i, level) == Printed(n.Children()[i], level) + PrintedFrom(n, i + 1, level)
  {
  }

  lemma RestSplits(n: ASTNode, i: nat, level: nat, s: seq<Line>)
    requires i < |n.Children()|
    ensures Rest(n, i, level, s) == Printed(n.Children()[i], level) + Rest(n, i + 1, level, s)
  {
    hide Printed, PrintedFrom;
    FromSplits(n, i, level);
    AppendingAssociates(Printed(n.Children()[i], level), PrintedFrom(n, i + 1, level), s);
  }

  lemma AppendingAssociates(a: seq<Line>, b: seq<Line>, c: seq<Line>)
    ensures a + b + c == a + (b + c)
  {
  }

  lemma StartsAt(n: ASTNode, i: nat, level: nat)
    requires ChildrenShown(n) && i <= |n.Children()|
    ensures if i == |n.Children()| then PrintedFrom(n, i, level) == []
            else PrintedFrom(n, i, level) != [] && PrintedFrom(n, i, level)[0].indent == level
  {
    OpenLines(n, level);
    if i < |n.Children()| {
      ShownHasLine(n.Children()[i]);
      FirstLineTells(n.Children()[i], level);
      StepLines(n, i, level, []);
      hide Printed, PrintedFrom, AllShown;
      assert [] + PrintedFrom(n, i, level) == PrintedFrom(n, i, level);
    }
  }

  /** Two trees that are printed alike are the same, scans and the number 0 included. */
  lemma PrintingIsInjective(n: ASTNode, m: ASTNode, level: nat)
    requires AllShown(n) && AllShown(m) && Printed(n, level) == Printed(m, level)
    ensures n == m
  {
    hide Printed, AllShown;
    assert Printed(n, level) + [] == Printed(m, level) + [];
    LinesDetermine(n, m, level, [], []);
  }
}
