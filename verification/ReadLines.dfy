/** The tree that the reader makes of any file tells the lines of the file, one by one: which node
    each line became, and that an error node stands where there is no expression. */
module ReadLines {
  import opened Ast
  import opened AstPrinter
  import opened AstReading
  import opened PrintedLines

  // ---------- the nodes that take a line ----------

  function Flat(parts: seq<seq<ASTNode>>): seq<ASTNode> {
    if parts == [] then [] else parts[0] + Flat(parts[1..])
  }

  /** The nodes of a tree in the order of their lines, without their children. A list of parameters
      takes no line. */
  function Nodes(n: ASTNode): seq<ASTNode>
    decreases n
  {
    Own(n) + Flat(seq(|n.Children()|, i requires 0 <= i < |n.Children()| => Nodes(n.Children()[i])))
  }

  function Own(n: ASTNode): seq<ASTNode> {
    if n.ParamVarDecls? then [] else [Bare(n)]
  }

  function AllNodes(ns: seq<ASTNode>): seq<ASTNode> {
    Flat(seq(|ns|, i requires 0 <= i < |ns| => Nodes(ns[i])))
  }

  lemma NodesAre(n: ASTNode)
    ensures Nodes(n) == Own(n) + AllNodes(n.Children())
  {
    var ns := n.Children();
    assert seq(|ns|, i requires 0 <= i < |ns| => Nodes(ns[i]))
        == seq(|n.Children()|, i requires 0 <= i < |n.Children()| => Nodes(n.Children()[i]));
  }

  lemma FirstNodes(n: ASTNode, ns: seq<ASTNode>)
    ensures AllNodes([n] + ns) == Nodes(n) + AllNodes(ns)
  {
    hide Nodes;
    var all := [n] + ns;
    var parts := seq(|all|, i requires 0 <= i < |all| => Nodes(all[i]));
    assert parts[0] == Nodes(n);
    assert parts[1..] == seq(|ns|, i requires 0 <= i < |ns| => Nodes(ns[i]));
  }

  lemma NodesOfFew(a: ASTNode, b: ASTNode)
    ensures AllNodes([]) == [] && AllNodes([a]) == Nodes(a) && AllNodes([a, b]) == Nodes(a) + Nodes(b)
  {
    hide Nodes;
    FirstNodes(a, []);
    FirstNodes(b, []);
    FirstNodes(a, [b]);
    assert [a] + [] == [a] && [b] + [] == [b] && [a] + [b] == [a, b];
  }

  // ---------- what a line says ----------

  /** What the reader keeps of a line: a name up to a space, a text up to a quote, and a location
      whose numbers are positive. */
  function Kept(text: LineText): LineText {
    match text
    case CallText(name, loc) => CallText(UpTo(name, ' '), ReadLocation(loc))
    case IdentifierText(name, loc) => IdentifierText(UpTo(name, ' '), ReadLocation(loc))
    case StringText(s, loc) => StringText(UpTo(s, '\"'), ReadLocation(loc))
    case FunctionText(name, returnType, loc) => FunctionText(name, returnType, ReadLocation(loc))
    case VarText(isParam, name, varType, size, loc) => VarText(isParam, name, varType, size, ReadLocation(loc))
    case ArrayText(loc) => ArrayText(ReadLocation(loc))
    case BinaryText(op, loc) => BinaryText(op, ReadLocation(loc))
    case BooleanText(flag, loc) => BooleanText(flag, ReadLocation(loc))
    case NumberText(value, loc) => NumberText(value, ReadLocation(loc))
    case IfText(loc) => IfText(ReadLocation(loc))
    case PrintText(loc) => PrintText(ReadLocation(loc))
    case ReturnText(loc) => ReturnText(ReadLocation(loc))
    case ScanText(loc) => ScanText(ReadLocation(loc))
    case WhileText(loc) => WhileText(ReadLocation(loc))
    case _ => text
  }

  /** An indented line of an expression: names start with a letter, numbers are positive. */
  predicate IsExpression(line: Line) {
    && line.indent > 0
    && match line.text
       case ArrayText(_) => true
       case BinaryText(_, _) => true
       case BooleanText(_, _) => true
       case StringText(_, _) => true
       case CallText(name, _) => StartsWithLetter(name)
       case IdentifierText(name, _) => StartsWithLetter(name)
       case NumberText(value, _) => value >= 1
       case _ => false
  }

  /** An error node stands for what is no expression, and the line in front of the statements of a
      body is not looked at. Every other line says what its node is. */
  predicate StandsFor(node: ASTNode, line: Line) {
    if node.ErrorNode? then !IsExpression(line)
    else node.CompoundStmt? || NodeOf(Kept(line.text)) == node
  }

  /** From line `p` on the lines are those of the nodes, up to line `next`; behind the end of the
      file come empty lines. */
  ghost predicate Tell(lines: seq<Line>, p: nat, nodes: seq<ASTNode>, next: nat) {
    && next == (if p + |nodes| <= |lines| then p + |nodes| else |lines|)
    && forall k :: 0 <= k < |nodes| ==> StandsFor(nodes[k], LineAt(lines, p + k))
  }

  lemma TellJoins(lines: seq<Line>, p: nat, a: seq<ASTNode>, q: nat, b: seq<ASTNode>, r: nat)
    requires p <= |lines| && Tell(lines, p, a, q) && Tell(lines, q, b, r)
    ensures Tell(lines, p, a + b, r)
  {
    hide StandsFor;
    forall k | 0 <= k < |a + b| ensures StandsFor((a + b)[k], LineAt(lines, p + k)) {
      if k >= |a| {
        assert (a + b)[k] == b[k - |a|];
        assert LineAt(lines, p + k) == LineAt(lines, q + (k - |a|));
      }
    }
  }

  lemma TellNothing(lines: seq<Line>, p: nat)
    requires p <= |lines|
    ensures Tell(lines, p, [], p)
  {
  }

  lemma TellOne(lines: seq<Line>, p: nat, node: ASTNode)
    requires p <= |lines| && StandsFor(node, LineAt(lines, p))
    ensures Tell(lines, p, [node], Advance(lines, p))
  {
  }

  // ---------- expressions ----------

  lemma {:induction false} ExprTells(lines: seq<Line>, p: nat)
    requires p <= |lines| && ReadExpr(lines, p).Got?
    ensures var r := ReadExpr(lines, p); Tell(lines, p, Nodes(r.value), r.next)
    decreases |lines| - p, 0
  {
    hide Tabs, ReadElems, ReadArgs, Tell, Nodes, AllNodes;
    var line, q := LineAt(lines, p), Advance(lines, p);
    var r := ReadExpr(lines, p);
    var n := r.value;
    NodesAre(n);
    TellOne(lines, p, Bare(n));
    TellNothing(lines, q);
    NodesOfFew(n, n);
    if n.ArrayExpr? {
      ElemsTell(lines, q, TabsAt(lines, q));
      TellJoins(lines, p, [Bare(n)], q, AllNodes(n.elems), r.next);
    } else if n.CallExpr? {
      ArgsTell(lines, q, Tabs(line));
      TellJoins(lines, p, [Bare(n)], q, AllNodes(n.args), r.next);
    } else if n.BinaryExpr? {
      var mid := ReadExpr(lines, q).next;
      ExprTells(lines, q);
      ExprTells(lines, mid);
      NodesOfFew(n.lhs, n.rhs);
      TellJoins(lines, q, Nodes(n.lhs), mid, Nodes(n.rhs), r.next);
      TellJoins(lines, p, [Bare(n)], q, Nodes(n.lhs) + Nodes(n.rhs), r.next);
    } else {
      assert n.Children() == [];
      assert [Bare(n)] + [] == [Bare(n)];
    }
  }

  lemma {:induction false} ElemsTell(lines: seq<Line>, p: nat, elemTabs: nat)
    requires p <= |lines| && ReadElems(lines, p, elemTabs).Got?
    ensures var r := ReadElems(lines, p, elemTabs); Tell(lines, p, AllNodes(r.value), r.next)
    decreases |lines| - p, 1
  {
    hide Tabs, ReadExpr, Tell, Nodes, AllNodes;
    if TabsAt(lines, p) >= elemTabs {
      ExprTells(lines, p);
      ElemsTell(lines, ReadExpr(lines, p).next, elemTabs);
      var rest := ReadElems(lines, ReadExpr(lines, p).next, elemTabs);
      FirstNodes(ReadExpr(lines, p).value, rest.value);
      TellJoins(lines, p, Nodes(ReadExpr(lines, p).value), ReadExpr(lines, p).next, AllNodes(rest.value), rest.next);
    } else {
      TellNothing(lines, p);
      NodesOfFew(Null, Null);
    }
  }

  lemma {:induction false} ArgsTell(lines: seq<Line>, p: nat, callTabs: nat)
    requires p <= |lines| && ReadArgs(lines, p, callTabs).Got?
    ensures var r := ReadArgs(lines, p, callTabs); Tell(lines, p, AllNodes(r.value), r.next)
    decreases |lines| - p, 1
  {
    hide ReadExpr, Tell, Nodes, AllNodes;
    if TabsAt(lines, p) > callTabs {
      ExprTells(lines, p);
      ArgsTell(lines, ReadExpr(lines, p).next, callTabs);
      var rest := ReadArgs(lines, ReadExpr(lines, p).next, callTabs);
      FirstNodes(ReadExpr(lines, p).value, rest.value);
      TellJoins(lines, p, Nodes(ReadExpr(lines, p).value), ReadExpr(lines, p).next, AllNodes(rest.value), rest.next);
    } else {
      TellNothing(lines, p);
      NodesOfFew(Null, Null);
    }
  }

  // ---------- statements ----------

  lemma OptionalTells(lines: seq<Line>, p: nat)
    requires p < |lines| && ReadOptional(lines, p).Got?
    ensures var r := ReadOptional(lines, p); Tell(lines, p + 1, AllNodes(Present(r.value)), r.next)
  {
    hide Tabs, ReadExpr, Tell, Nodes, AllNodes;
    if TabsAt(lines, p) < TabsAt(lines, p + 1) {
      ExprTells(lines, p + 1);
      NodesOfFew(ReadOptional(lines, p).value, Null);
      ExprIsPresent(lines, p + 1);
    } else {
      TellNothing(lines, p + 1);
      NodesOfFew(Null, Null);
    }
  }

  lemma ExprIsPresent(lines: seq<Line>, p: nat)
    requires p <= |lines| && ReadExpr(lines, p).Got?
    ensures !ReadExpr(lines, p).value.Null?
  {
    hide Tabs, ReadElems, ReadArgs;
  }

  lemma VarTells(lines: seq<Line>, p: nat, isParam: bool)
    requires p < |lines| && MatchesVar(lines[p], isParam) && ReadVarDecl(lines, p, isParam).Got?
    ensures var r := ReadVarDecl(lines, p, isParam); Tell(lines, p, Nodes(r.value), r.next)
  {
    var r := ReadVarDecl(lines, p, isParam);
    assert StandsFor(Bare(r.value), lines[p]);
    hide Tabs, ReadOptional, Tell, Nodes, AllNodes, Bare, StandsFor;
    OptionalTells(lines, p);
    NodesAre(r.value);
    TellOne(lines, p, Bare(r.value));
    TellJoins(lines, p, [Bare(r.value)], p + 1, AllNodes(Present(r.value.init)), r.next);
  }

  /** A body: its first line may say anything. */
  lemma {:induction false} CompoundTells(lines: seq<Line>, p: nat)
    requires p <= |lines| && ReadCompound(lines, p).Got?
    ensures var r := ReadCompound(lines, p); Tell(lines, p, Nodes(r.value), r.next)
    decreases |lines| - p, 0
  {
    hide Tabs, ReadStmts, Tell, Nodes, AllNodes;
    var r := ReadCompound(lines, p);
    NodesAre(r.value);
    TellOne(lines, p, CompoundStmt([]));
    if p < |lines| {
      StmtsTell(lines, p + 1, TabsAt(lines, p));
      TellJoins(lines, p, [CompoundStmt([])], p + 1, AllNodes(r.value.stmts), r.next);
    } else {
      NodesOfFew(Null, Null);
      assert [CompoundStmt([])] + [] == [CompoundStmt([])];
    }
  }

  lemma {:induction false} StmtsTell(lines: seq<Line>, p: nat, topTabs: nat)
    requires p <= |lines| && ReadStmts(lines, p, topTabs).Got?
    ensures var r := ReadStmts(lines, p, topTabs); Tell(lines, p, AllNodes(r.value), r.next)
    decreases |lines| - p, 3
  {
    hide ReadChild, Tell, Nodes, AllNodes;
    if TabsAt(lines, p) > topTabs {
      ChildTells(lines, p);
      var child := ReadChild(lines, p);
      StmtsTell(lines, child.next, topTabs);
      var rest := ReadStmts(lines, child.next, topTabs);
      FirstNodes(child.value, rest.value);
      TellJoins(lines, p, Nodes(child.value), child.next, AllNodes(rest.value), rest.next);
    } else {
      TellNothing(lines, p);
      NodesOfFew(Null, Null);
    }
  }

  lemma {:induction false} ChildTells(lines: seq<Line>, p: nat)
    requires p < |lines| && ReadChild(lines, p).Got?
    ensures var r := ReadChild(lines, p); Tell(lines, p, Nodes(r.value), r.next)
    decreases |lines| - p, 2
  {
    hide ReadExpr, ReadVarDecl, ReadStmt, Tell, Nodes;
    if MatchesVar(lines[p], false) {
      VarTells(lines, p, false);
    } else if MatchesStmt(lines[p]) {
      StmtTells(lines, p);
    } else {
      ExprTells(lines, p);
    }
  }

  lemma {:induction false} StmtTells(lines: seq<Line>, p: nat)
    requires p < |lines| && MatchesStmt(lines[p]) && ReadStmt(lines, p).Got?
    ensures var r := ReadStmt(lines, p); Tell(lines, p, Nodes(r.value), r.next)
    decreases |lines| - p, 1
  {
    hide ReadGuarded, ReadCompound, ReadOptional, Tell, Nodes, AllNodes;
    var r := ReadStmt(lines, p);
    var n := r.value;
    NodesAre(n);
    if lines[p].text.CompoundText? {
      CompoundTells(lines, p);
    } else {
      TellOne(lines, p, Bare(n));
      if n.PrintStmt? || n.ReturnStmt? {
        OptionalTells(lines, p);
        TellJoins(lines, p, [Bare(n)], p + 1, AllNodes(n.Children()), r.next);
      } else {
        GuardedTells(lines, p + 1);
        TellJoins(lines, p, [Bare(n)], p + 1, AllNodes([n.cond, n.body]), r.next);
      }
    }
  }

  lemma {:induction false} GuardedTells(lines: seq<Line>, p: nat)
    requires p <= |lines| && ReadGuarded(lines, p).Got?
    ensures var r := ReadGuarded(lines, p); Tell(lines, p, AllNodes([r.value.0, r.value.1]), r.next)
    decreases |lines| - p, 1
  {
    hide ReadExpr, ReadCompound, Tell, Nodes, AllNodes;
    var cond := ReadExpr(lines, p);
    var body := ReadCompound(lines, cond.next);
    ExprTells(lines, p);
    CompoundTells(lines, cond.next);
    NodesOfFew(cond.value, body.value);
    TellJoins(lines, p, Nodes(cond.value), cond.next, Nodes(body.value), body.next);
  }

  // ---------- declarations ----------

  lemma {:induction false} ParamsTell(lines: seq<Line>, p: nat)
    requires p <= |lines| && ReadParams(lines, p).Got?
    ensures var r := ReadParams(lines, p); Tell(lines, p, AllNodes(r.value), r.next)
    decreases |lines| - p
  {
    hide ReadVarDecl, Tell, Nodes, AllNodes;
    if MatchesVar(LineAt(lines, p), true) {
      VarTells(lines, p, true);
      var param := ReadVarDecl(lines, p, true);
      ParamsTell(lines, param.next);
      var rest := ReadParams(lines, param.next);
      FirstNodes(param.value, rest.value);
      TellJoins(lines, p, Nodes(param.value), param.next, AllNodes(rest.value), rest.next);
    } else {
      TellNothing(lines, p);
      NodesOfFew(Null, Null);
    }
  }

  lemma DeclTells(lines: seq<Line>, p: nat)
    requires p < |lines| && ReadDecl(lines, p).Got?
    ensures var r := ReadDecl(lines, p); Tell(lines, p, Nodes(r.value), r.next)
  {
    if MatchesFunction(lines[p]) {
      FunctionTells(lines, p);
    } else {
      VarTells(lines, p, false);
    }
  }

  lemma FunctionTells(lines: seq<Line>, p: nat)
    requires p < |lines| && MatchesFunction(lines[p]) && ReadFuncDecl(lines, p).Got?
    ensures var r := ReadFuncDecl(lines, p); Tell(lines, p, Nodes(r.value), r.next)
  {
    hide ReadParams, ReadCompound, Tell, Nodes, AllNodes;
    var r := ReadFuncDecl(lines, p);
    var n := r.value;
    var params := ReadParams(lines, p + 1);
    NodesAre(n);
    NodesAre(n.params);
    NodesOfFew(n.params, n.body);
    assert [] + AllNodes(params.value) == AllNodes(params.value);
    TellOne(lines, p, Bare(n));
    ParamsTell(lines, p + 1);
    CompoundTells(lines, params.next);
    TellJoins(lines, p + 1, AllNodes(params.value), params.next, Nodes(n.body), r.next);
    TellJoins(lines, p, [Bare(n)], p + 1, AllNodes(params.value) + Nodes(n.body), r.next);
  }

  lemma {:induction false} DeclsTell(lines: seq<Line>, p: nat)
    requires p <= |lines| && ReadDecls(lines, p).Got?
    ensures var r := ReadDecls(lines, p); Tell(lines, p, AllNodes(r.value), r.next)
    decreases |lines| - p
  {
    hide ReadDecl, Tell, Nodes, AllNodes;
    if p < |lines| {
      DeclTells(lines, p);
      var decl := ReadDecl(lines, p);
      DeclsTell(lines, decl.next);
      var rest := ReadDecls(lines, decl.next);
      FirstNodes(decl.value, rest.value);
      TellJoins(lines, p, Nodes(decl.value), decl.next, AllNodes(rest.value), rest.next);
    } else {
      TellNothing(lines, p);
      NodesOfFew(Null, Null);
    }
  }

  /** Whatever the file: a tree that the reader returns is null, and then the file does not start
      with a program line, or its nodes are the lines of the whole file in order. */
  lemma TreeTellsLines(lines: seq<Line>)
    requires ReadTree(lines).Got?
    ensures var n := ReadTree(lines).value;
            if n.Null? then LineAt(lines, 0) != Line(0, ProgramText) else Tell(lines, 0, Nodes(n), |lines|)
  {
    hide ReadDecls, Tell, Nodes, AllNodes;
    var n := ReadTree(lines).value;
    if !n.Null? {
      NodesAre(n);
      TellOne(lines, 0, Bare(n));
      DeclsTell(lines, 1);
      TellJoins(lines, 0, [Bare(n)], 1, AllNodes(n.decls), |lines|);
    }
  }
}
