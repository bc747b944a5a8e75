/** Overload resolution: the candidates a visit leaves for a call are the functions it may mean as
    the rules are coded, and a check against a type picks one that returns it. */
module TypingCalls {
  import opened Ast
  import opened LexicalScoping
  import opened SymbolTable
  import opened TypeChecking
  import opened TypingRules
  import opened TableDeclarations
  import opened TypingFrames
  import opened TypingExpressions

  lemma EmptyOrNot(s: seq<NodeId>)
    ensures s == [] || exists d :: d in s
  {
    if s != [] {
      assert s[0] in s;
    }
  }

  // ---------- what the arguments leave of the candidates ----------

  ghost predicate OwnFrom(g: Context, n: ASTNode, id: NodeId, st: State)
    requires n.CallExpr?
  {
    forall j | 0 <= j < |n.args| :: Own(g, n.args[j], id + [j], st)
  }

  /** Among `s`, the functions that may be called with the arguments from the `i`-th on. */
  ghost predicate Filtered(g: Context, n: ASTNode, i: nat, id: NodeId, s: seq<NodeId>, r: seq<NodeId>)
    requires n.CallExpr? && forall d :: d in s ==> IsFor(g.decls, n, d)
  {
    && (forall d :: d in r <==> d in s && forall j | i <= j < |n.args| :: Takes(g.quirks.calls, g, n, j, id, d))
    && (NoRepeats(s) ==> NoRepeats(r))
  }

  /** The candidates that the `i`-th argument leaves. */
  lemma ArgumentFilters(g: Context, syms: Symbols, n: ASTNode, i: nat, id: NodeId, s: seq<NodeId>, st: State)
    requires n.CallExpr? && Simple(n) && i < |n.args| && Codes(g, syms) && Own(g, n.args[i], id + [i], st)
    requires Evaluates(g, n.args[i], id + [i]) && forall d :: d in s ==> IsFor(g.decls, n, d)
    ensures if n.args[i].CallExpr? then
              id + [i] in st.overloads && var r := WithReturnOf(syms.table, s, st.overloads[id + [i]]);
              && st.overloads[id + [i]] != [] && (NoRepeats(s) ==> NoRepeats(r))
              && (forall d :: d in r <==> d in s && Takes(g.quirks.calls, g, n, i, id, d))
            else
              var r := WithParameter(syms.table, s, i, st.TypeAt(id + [i]));
              && !n.args[i].Null? && st.Read(id + [i]) == st && (NoRepeats(s) ==> NoRepeats(r))
              && (forall d :: d in r <==> d in s && Takes(g.quirks.calls, g, n, i, id, d))
  {
    ReadsDeclarations(syms.table);
    hide TypeOf, MeansBy, Simple, ParameterTypes, ReturnType, DeclarationsIn;
    ArgumentIsThere(n, i);
    if n.args[i].CallExpr? {
      var inner, table := st.overloads[id + [i]], syms.table;
      var e :| Means(g, n.args[i], id + [i], e);
      assert e in inner;
      forall e | e in inner ensures e in g.decls && g.decls[e].Function? {
        MeansIsFor(g, n.args[i], id + [i], e);
      }
      forall d | d in s
        ensures Takes(g.quirks.calls, g, n, i, id, d) <==> exists e | e in inner :: Returns(table, e, ReturnType(table[d]))
      {
        assert Takes(g.quirks.calls, g, n, i, id, d)
          <==> exists e :: Means(g, n.args[i], id + [i], e) && Gives(g.decls, e, g.decls[d].result);
      }
    } else {
      assert HasItsType(g, n.args[i], id + [i], st);
    }
  }

  lemma MeansIsFor(g: Context, n: ASTNode, id: NodeId, d: NodeId)
    requires n.CallExpr? && Means(g, n, id, d)
    ensures IsFor(g.decls, n, d)
  {
  }

  /** The functions of the name and number of arguments, as the checker finds them. */
  lemma NamedAreFor(syms: Symbols, n: ASTNode)
    requires n.CallExpr? && syms.Valid()
    ensures var s := WithArity(syms.table, WithName(syms.table, syms.order, n.name), |n.args|);
            NoRepeats(s) && forall d :: d in s <==> IsFor(DeclarationsIn(syms.table), n, d)
  {
    ReadsDeclarations(syms.table);
    hide WithName, WithArity;
  }

  lemma ArgumentIsThere(n: ASTNode, i: nat)
    requires n.CallExpr? && Simple(n) && i < |n.args|
    ensures Simple(n.args[i]) && !n.args[i].Null?
  {
  }

  lemma {:induction false} ArgumentsFilter(
    g: Context, syms: Symbols, n: ASTNode, i: nat, id: NodeId, s: seq<NodeId>, st: State) returns (c: seq<NodeId>)
    requires n.CallExpr? && Simple(n) && i <= |n.args| && !st.failed && Codes(g, syms)
    requires OwnFrom(g, n, id, st) && EvaluatesFrom(g, n, 0, id)
    requires forall d :: d in s ==> IsFor(g.decls, n, d)
    ensures Filtered(g, n, i, id, s, c)
    ensures HandleArguments(syms, n, i, id, s, st)
         == (if c == [] then st.Error() else st).(overloads := st.overloads[id := c])
    decreases |n.args| - i
  {
    hide Simple, Own, Evaluates, Takes, IsFor, WithReturnOf, WithParameter;
    if i == |n.args| {
      c := s;
    } else {
      assert Own(g, n.args[i], id + [i], st) && Evaluates(g, n.args[i], id + [i]);
      ArgumentFilters(g, syms, n, i, id, s, st);
      var r := if n.args[i].CallExpr? then WithReturnOf(syms.table, s, st.overloads[id + [i]])
               else WithParameter(syms.table, s, i, st.TypeAt(id + [i]));
      c := ArgumentsFilter(g, syms, n, i + 1, id, r, st);
    }
  }

  /** Once its arguments are visited, the candidates of a call are exactly the functions of that
      name and number of parameters whose parameters have the types of the arguments that are no
      calls, and whose result every argument that is a call may return. None is an error. */
  lemma CallHandled(g: Context, syms: Symbols, n: ASTNode, id: NodeId, st: State)
    requires n.CallExpr? && Simple(n) && !st.failed && Codes(g, syms) && syms.Valid()
    requires OwnFrom(g, n, id, st) && EvaluatesFrom(g, n, 0, id)
    ensures var r := HandleCall(syms, n, id, st);
            && HasCandidates(g, n, id, r)
            && r == (if r.overloads[id] == [] then st.Error() else st).(overloads := st.overloads[id := r.overloads[id]])
  {
    hide Simple, Own, Evaluates, Takes, HandleArguments, DeclarationsIn, WithName, WithArity, Lists, NoRepeats;
    var s := WithArity(syms.table, WithName(syms.table, syms.order, n.name), |n.args|);
    NamedAreFor(syms, n);
    if s != [] {
      var c := ArgumentsFilter(g, syms, n, 0, id, s, st);
      forall d ensures d in c <==> Means(g, n, id, d) {
        assert Means(g, n, id, d) <==> MeansBy(g.quirks.calls, g, n, id, d);
      }
    } else {
      assert forall d :: !Means(g, n, id, d);
    }
  }

  // ---------- checking ----------

  predicate HasInnerCalls(n: ASTNode)
    requires n.CallExpr?
  {
    exists i | 0 <= i < |n.args| :: n.args[i].CallExpr?
  }

  /** Two functions that a call with call-free arguments may mean and that return the same are one
      and the same. */
  lemma MeaningIsUnique(g: Context, table: Table, n: ASTNode, id: NodeId, ty: Type, d: NodeId, e: NodeId)
    requires n.CallExpr? && !HasInnerCalls(n) && Means(g, n, id, d) && Means(g, n, id, e)
    requires Collected(table) && g.decls == DeclarationsIn(table)
    requires Gives(g.decls, d, ty) && Gives(g.decls, e, ty)
    ensures d == e
  {
    hide TypeOf;
    var f, f' := g.decls[d], g.decls[e];
    forall j | 0 <= j < |n.args| ensures f.parameters[j] == f'.parameters[j] {
      assert Takes(g.quirks.calls, g, n, j, id, d) && Takes(g.quirks.calls, g, n, j, id, e);
    }
    assert f.parameters == f'.parameters;
    var a, b := table[d], table[e];
    assert a.types == [a.types[0]] + a.types[1..] && b.types == [b.types[0]] + b.types[1..];
    assert Clashes(a, b);
  }

  /** A function symbol is found at its own entry. */
  lemma EntryIsItself(syms: Symbols, d: NodeId)
    requires syms.Valid() && NoDuplicates(syms.table) && d in syms.table && syms.table[d].FunctionSymbol?
    ensures Entry(syms.table, syms.order, syms.table[d]) == Some(d)
  {
    var e := Entry(syms.table, syms.order, syms.table[d]);
    assert d in syms.order;
    assert Clashes(syms.table[e.value], syms.table[d]);
  }

  /** The call is resolved to `d`. */
  predicate BoundTo(id: NodeId, d: NodeId, st: State, r: State) {
    r == st.(overloads := st.overloads - {id}, uses := st.uses[id := d])
  }

  /** A check of a visited expression is positive exactly when it may have the type. A call is then
      bound to a function that it may mean and that returns the type, and if its arguments are
      call-free, to the only one. */
  lemma SimpleChecked(g: Context, syms: Symbols, n: ASTNode, id: NodeId, ty: Type, st: State)
    requires Simple(n) && !st.failed && Matches(g, syms) && Own(g, n, id, st) && Evaluates(g, n, id)
    ensures var (good, r) := Check(syms, n, id, ty, st);
            && (good <==> MayHave(g, n, id, ty))
            && (!n.CallExpr? ==> r == st)
            && (n.CallExpr? && !good ==> r == st.Error())
            && (n.CallExpr? && good ==>
                 exists d :: Means(g, n, id, d) && Gives(g.decls, d, ty) && BoundTo(id, d, st, r)
                          && (!HasInnerCalls(n) ==> forall e :: Means(g, n, id, e) && Gives(g.decls, e, ty) ==> e == d))
  {
    ReadsDeclarations(syms.table);
    if n.CallExpr? {
      forall e | e in st.overloads[id] ensures e in g.decls && g.decls[e].Function? {
        MeansIsFor(g, n, id, e);
      }
      hide Means, BindCall, Simple, Symbols.Valid, Collected, DeclarationsIn;
      var d := FirstReturning(syms.table, st.overloads[id], ty);
      assert exists e :: e in st.overloads[id];
      if d.Some? {
        CallBound(g, syms, n, id, d.value, st);
        forall e | !HasInnerCalls(n) && Means(g, n, id, e) && Gives(g.decls, e, ty) ensures e == d.value {
          MeaningIsUnique(g, syms.table, n, id, ty, d.value, e);
        }
      }
    } else {
      hide TypeOf, Means, Symbols.Valid, Collected;
      SimpleIsNoStmt(n);
    }
  }

  lemma CallBound(g: Context, syms: Symbols, n: ASTNode, id: NodeId, d: NodeId, st: State)
    requires n.CallExpr? && Matches(g, syms) && Means(g, n, id, d)
    ensures BoundTo(id, d, st, BindCall(syms, id, d, st.(overloads := st.overloads - {id})))
  {
    hide TypeOf, Entry;
    EntryIsItself(syms, d);
  }
}
