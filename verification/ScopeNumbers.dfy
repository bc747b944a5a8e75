/** The ids of scopes during a run of the collector: each block gets its number in order of
    visits, and the path lists the numbers of the blocks around the node that is visited. */
module ScopeNumbers {
  import opened Ast
  import opened LexicalScoping
  import opened SymbolTable
  import opened Collecting
  import Refinement = ScopingRefinement

  // ---------- places in a tree ----------

  predicate IsPlace(n: ASTNode, p: seq<nat>)
    decreases |p|
  {
    p == [] || (p[0] < |n.Children()| && IsPlace(n.Children()[p[0]], p[1..]))
  }

  function NodeAt(n: ASTNode, p: seq<nat>): ASTNode
    requires IsPlace(n, p)
    decreases |p|
  {
    if p == [] then n else NodeAt(n.Children()[p[0]], p[1..])
  }

  // ---------- numbers ----------

  function Own(n: ASTNode): nat { if n.CompoundStmt? then 1 else 0 }

  /** The blocks in a tree. */
  function Blocks(n: ASTNode): nat
    decreases n, |n.Children()| + 1
  {
    Own(n) + BlocksTo(n, |n.Children()|)
  }

  /** The blocks in the first `i` children. */
  function BlocksTo(n: ASTNode, i: nat): nat
    requires i <= |n.Children()|
    decreases n, i
  {
    if i == 0 then 0 else BlocksTo(n, i - 1) + Blocks(n.Children()[i - 1])
  }

  /** The blocks that a visit has entered when it comes to a place, the block there included. */
  function Number(n: ASTNode, p: seq<nat>): nat
    requires IsPlace(n, p)
    decreases |p|
  {
    if p == [] then Own(n) else Own(n) + BlocksTo(n, p[0]) + Number(n.Children()[p[0]], p[1..])
  }

  /** The numbers of the blocks around a place, the innermost first; `start` blocks were entered
      before. */
  function Enclosing(n: ASTNode, p: seq<nat>, start: nat): seq<nat>
    requires IsPlace(n, p)
    decreases |p|
  {
    (if p == [] then [] else Enclosing(n.Children()[p[0]], p[1..], start + Own(n) + BlocksTo(n, p[0])))
    + if n.CompoundStmt? then [start + 1] else []
  }

  // ---------- the run ----------

  /** After the first `i` children have been visited. */
  function CollectTo(n: ASTNode, i: nat, id: NodeId, st: State): State
    requires Typed(n) && i <= |n.Children()|
  {
    if i == 0 then st else Collect(n.Children()[i - 1], id + [i - 1], CollectTo(n, i - 1, id, st))
  }

  /** The state in which the node at a place is handled. */
  function StateAt(n: ASTNode, id: NodeId, p: seq<nat>, st: State): State
    requires Typed(n) && IsPlace(n, p)
    decreases |p|
  {
    if p == [] then Enter(n, st)
    else StateAt(n.Children()[p[0]], id + [p[0]], p[1..], CollectTo(n, p[0], id, Handle(n, id, Enter(n, st))))
  }

  /** A visit does come by the states it is said to come by. */
  lemma {:induction false} CollectsInTurn(n: ASTNode, i: nat, id: NodeId, st: State)
    requires Typed(n) && i <= |n.Children()|
    ensures CollectFrom(n, 0, id, st) == CollectFrom(n, i, id, CollectTo(n, i, id, st))
    decreases i
  {
    hide Collect, Typed, ASTNode.Children;
    if i > 0 {
      CollectsInTurn(n, i - 1, id, st);
    }
  }

  lemma {:induction false} CollectCounts(n: ASTNode, id: NodeId, st: State)
    requires Typed(n)
    ensures Collect(n, id, st).scopeId == st.scopeId + Blocks(n)
    decreases n, |n.Children()| + 1
  {
    hide Handle, CollectTo, Typed;
    if !n.Null? {
      var mid := Handle(n, id, Enter(n, st));
      CollectsInTurn(n, |n.Children()|, id, mid);
      CollectToCounts(n, |n.Children()|, id, mid);
    }
  }

  lemma {:induction false} CollectToCounts(n: ASTNode, i: nat, id: NodeId, st: State)
    requires Typed(n) && i <= |n.Children()|
    ensures CollectTo(n, i, id, st).scopeId == st.scopeId + BlocksTo(n, i) && CollectTo(n, i, id, st).path == st.path
    decreases n, i
  {
    hide Collect, Typed, ASTNode.Children;
    if i > 0 {
      CollectToCounts(n, i - 1, id, st);
      Refinement.TypedChild(n, i - 1);
      CollectCounts(n.Children()[i - 1], id + [i - 1], CollectTo(n, i - 1, id, st));
    }
  }

  /** At every node that is visited the path lists exactly the numbers of the blocks around it,
      innermost first, on top of what it listed before; the counter is the number of blocks
      entered so far. */
  lemma {:induction false} PathListsEnclosing(n: ASTNode, id: NodeId, p: seq<nat>, st: State)
    requires Typed(n) && IsPlace(n, p)
    ensures var at := StateAt(n, id, p, st);
            at.path == Enclosing(n, p, st.scopeId) + st.path && at.scopeId == st.scopeId + Number(n, p)
    decreases |p|
  {
    hide Handle, Typed, BlocksTo, CollectTo, ASTNode.Children;
    if p != [] {
      var c := n.Children()[p[0]];
      var mid := Handle(n, id, Enter(n, st));
      var before := CollectTo(n, p[0], id, mid);
      CollectToCounts(n, p[0], id, mid);
      Refinement.TypedChild(n, p[0]);
      PathListsEnclosing(c, id + [p[0]], p[1..], before);
      OuterLast(n, p, st, before);
    } else {
      assert [] + st.path == st.path;
    }
  }

  /** The numbers around a place below a child come before that of the node itself. */
  lemma OuterLast(n: ASTNode, p: seq<nat>, st: State, before: State)
    requires IsPlace(n, p) && p != [] && before.path == Enter(n, st).path
    requires before.scopeId == st.scopeId + Own(n) + BlocksTo(n, p[0])
    ensures Enclosing(n.Children()[p[0]], p[1..], before.scopeId) + before.path == Enclosing(n, p, st.scopeId) + st.path
  {
    hide BlocksTo, ASTNode.Children;
    var inner := Enclosing(n.Children()[p[0]], p[1..], before.scopeId);
    var own: seq<nat> := if n.CompoundStmt? then [st.scopeId + 1] else [];
    assert Enclosing(n, p, st.scopeId) == inner + own;
    hide Enclosing, IsPlace;
    Regroup(inner, own, st.path);
  }

  lemma Regroup(a: seq<nat>, b: seq<nat>, c: seq<nat>)
    ensures (a + b) + c == a + (b + c) && [] + c == c
  {
  }

  // ---------- no number twice ----------

  lemma {:induction false} BlocksGrow(n: ASTNode, i: nat, j: nat)
    requires i < j <= |n.Children()|
    ensures BlocksTo(n, i) + Blocks(n.Children()[i]) <= BlocksTo(n, j)
    decreases j
  {
    hide Blocks;
    if i + 1 < j {
      BlocksGrow(n, i, j - 1);
    }
  }

  lemma {:induction false} NumberIsBounded(n: ASTNode, p: seq<nat>)
    requires IsPlace(n, p)
    ensures Number(n, p) <= Blocks(n)
    decreases |p|
  {
    if p != [] {
      NumberIsBounded(n.Children()[p[0]], p[1..]);
      BlocksGrow(n, p[0], |n.Children()|);
    }
  }

  lemma {:induction false} NumberIsPositive(n: ASTNode, p: seq<nat>)
    requires IsPlace(n, p) && NodeAt(n, p).CompoundStmt?
    ensures Number(n, p) >= 1
    decreases |p|
  {
    if p != [] {
      NumberIsPositive(n.Children()[p[0]], p[1..]);
    }
  }

  /** No two blocks of a tree get the same number: ids are never reused. */
  lemma {:induction false} NumbersDiffer(n: ASTNode, p: seq<nat>, q: seq<nat>)
    requires IsPlace(n, p) && IsPlace(n, q) && NodeAt(n, p).CompoundStmt? && NodeAt(n, q).CompoundStmt? && p != q
    ensures Number(n, p) != Number(n, q)
    decreases |p|
  {
    if p == [] {
      NumberIsPositive(n.Children()[q[0]], q[1..]);
    } else if q == [] {
      NumberIsPositive(n.Children()[p[0]], p[1..]);
    } else if p[0] == q[0] {
      NumbersDiffer(n.Children()[p[0]], p[1..], q[1..]);
    } else {
      var (a, b) := if p[0] < q[0] then (p, q) else (q, p);
      NumberIsBounded(n.Children()[a[0]], a[1..]);
      NumberIsPositive(n.Children()[b[0]], b[1..]);
      BlocksGrow(n, a[0], b[0]);
    }
  }

  // ---------- parameters ----------

  /** The parameters of a function are entered under the number its body gets. */
  lemma ParametersShareTheBody(n: ASTNode, id: NodeId, st: State, node: NodeId)
    requires n.FunctionDecl? && IsDecl(n) && Typed(n)
    ensures IsPlace(n, [1]) && NodeAt(n, [1]) == n.body && Number(n, [1]) == 1
    ensures var after := AddParams(n.params, 0, id + [0], st).table;
            node in after && node !in st.table ==>
              after[node].VariableSymbol? && after[node].scopeId == st.scopeId + Number(n, [1])
  {
    AddedParams(n.params, 0, id + [0], st, node);
    NoBlocks(n.params, |n.params.parameters|);
    assert n.Children() == [n.params, n.body] && [1][1..] == [];
    assert NodeAt(n.body, []) == n.body && Number(n.body, []) == 1;
    assert BlocksTo(n, 1) == BlocksTo(n, 0) + Blocks(n.params) == 0;
  }

  lemma {:induction false} NoBlocks(n: ASTNode, i: nat)
    requires n.ParamVarDecls? && i <= |n.parameters| && forall j | 0 <= j < |n.parameters| :: IsParam(n.parameters[j])
    ensures BlocksTo(n, i) == 0
    decreases i
  {
    if i > 0 {
      NoBlocks(n, i - 1);
      assert n.parameters[i - 1].Children() == [] && Blocks(n.parameters[i - 1]) == 0;
    }
  }

  lemma {:induction false} AddedParams(n: ASTNode, i: nat, id: NodeId, st: State, node: NodeId)
    requires n.ParamVarDecls? && i <= |n.parameters|
    requires forall j | 0 <= j < |n.parameters| :: n.parameters[j].VarDecl?
    ensures var after := AddParams(n, i, id, st).table;
            && (node in st.table ==> node in after)
            && (node in after ==>
                  || (node in st.table && after[node] == st.table[node])
                  || (after[node].VariableSymbol? && after[node].scopeId == st.scopeId + 1))
    decreases |n.parameters| - i
  {
    hide HasClash;
    if i < |n.parameters| {
      var p := n.parameters[i];
      AddedParams(n, i + 1, id, Add(st, id + [i], VariableSymbol(p.varType, st.scopeId + 1, p.name, p.size)), node);
    }
  }
}
