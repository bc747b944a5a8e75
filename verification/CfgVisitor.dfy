/** The two depth-first visits of a control flow graph. The action is recorded as the sequence
    of blocks it was executed on. */
module CfgVisitor {
  import opened ControlFlowGraph
  import opened VisitOrder

  lemma DistinctAppend(s: seq<nat>, t: seq<nat>)
    requires Distinct(s) && Distinct(t) && Elements(s) !! Elements(t)
    ensures Distinct(s + t) && Elements(s + t) == Elements(s) + Elements(t)
  {
    forall i, j | 0 <= i < j < |s + t| ensures (s + t)[i] != (s + t)[j] {
      if i < |s| <= j {
        assert s[i] in Elements(s) && t[j - |s|] in Elements(t);
      }
    }
  }

  /** What one recursive visit that starts at `entry` with the blocks `seen` already visited
      adds to the list of visited blocks: blocks that can be reached from `entry` through
      blocks not seen before, each once, closed under branches, and in depth-first order with
      successors in the order of their lists. */
  ghost predicate Discovers(g: Graph, entry: nat, seen: set<nat>, found: seq<nat>) {
    && Distinct(found) && |found| > 0 && found[0] == entry
    && (forall b :: b in found ==> Discovered(g, entry, seen, b))
    && (forall u :: u in found ==> Expanded(g, u, seen + Elements(found)))
    && DepthFirst(g, seen, found)
  }

  ghost predicate Discovered(g: Graph, entry: nat, seen: set<nat>, b: nat) {
    b < |g| && ReachesAvoiding(g, entry, b, seen) && (b == entry || b !in seen)
  }

  /** Along `done`, an edge to a block that was neither seen before the visit nor executed
      before its source comes from a cycle. */
  ghost predicate PostOrdered(g: Graph, seen: set<nat>, done: seq<nat>) {
    forall i :: 0 <= i < |done| ==> Settled(g, seen, done[..i], done[i])
  }

  ghost predicate Settled(g: Graph, seen: set<nat>, before: seq<nat>, u: nat) {
    u < |g| ==> forall v :: v in g[u] ==> v in seen || v in before || Reaches(g, v, u)
  }

  // ---------- one turn of the loop over the successors ----------

  /** The visit of `block` after the first `i` successors: `found` so far, and `done`, the same
      blocks without `block` itself in the order they were finished. */
  ghost predicate Partial(g: Graph, block: nat, seen: set<nat>, i: nat, found: seq<nat>, done: seq<nat>) {
    && block < |g| && i <= |g[block]|
    && Distinct(found) && |found| > 0 && found[0] == block
    && (forall b :: b in found ==> Discovered(g, block, seen, b))
    && (forall u :: u in done ==> Expanded(g, u, seen + Elements(found)))
    && (forall j :: 0 <= j < i ==> g[block][j] in seen + Elements(found))
    && DepthFirst(g, seen, found)
    && Distinct(done) && block !in done && Elements(found) == Elements(done) + {block}
    && PostOrdered(g, seen, done) && InPostOrder(g, seen, found, done)
  }

  lemma PartialStart(g: Graph, block: nat, seen: set<nat>)
    requires block < |g|
    ensures Partial(g, block, seen, 0, [block], [])
  {
    PathToSelf(g, block, seen);
  }

  lemma PartialSkip(g: Graph, block: nat, seen: set<nat>, i: nat, found: seq<nat>, done: seq<nat>)
    requires Partial(g, block, seen, i, found, done) && i < |g[block]|
    requires g[block][i] in seen + Elements(found)
    ensures Partial(g, block, seen, i + 1, found, done)
  {
  }

  lemma ReachesFromBlock(g: Graph, block: nat, c: nat, b: nat, seen: set<nat>, more: set<nat>)
    requires block < |g| && c in g[block] && c !in seen && seen <= more
    requires ReachesAvoiding(g, c, b, more)
    ensures ReachesAvoiding(g, block, b, seen)
  {
    PathToSelf(g, block, seen);
    ExtendPath(g, block, block, c, seen);
    var p :| IsPath(g, p, c, b, more);
    JoinPaths(g, block, c, b, p, more, seen);
  }

  lemma AvoidingIsReaching(g: Graph, a: nat, b: nat, avoid: set<nat>)
    requires a < |g| && ReachesAvoiding(g, a, b, avoid)
    ensures Reaches(g, a, b)
  {
    PathToSelf(g, a, {});
    var p :| IsPath(g, p, a, b, avoid);
    JoinPaths(g, a, a, b, p, avoid, {});
  }

  lemma PartialFound(g: Graph, block: nat, seen: set<nat>, i: nat, found: seq<nat>, done: seq<nat>, found': seq<nat>)
    requires Partial(g, block, seen, i, found, done) && i < |g[block]|
    requires g[block][i] !in seen + Elements(found)
    requires Discovers(g, g[block][i], seen + Elements(found), found')
    ensures Distinct(found + found') && Elements(found + found') == Elements(found) + Elements(found')
    ensures forall b :: b in found + found' ==> Discovered(g, block, seen, b)
  {
    var more := seen + Elements(found);
    var c := g[block][i];
    assert forall b :: b in found' ==> Discovered(g, c, more, b) && b !in more;
    DistinctAppend(found, found');
    forall b | b in found' ensures Discovered(g, block, seen, b) {
      ReachesFromBlock(g, block, c, b, seen, more);
    }
  }

  /** All blocks found but the first are done. */
  lemma RestIsDone(block: nat, found: seq<nat>, done: seq<nat>)
    requires Distinct(found) && |found| > 0 && found[0] == block
    requires block !in done && Elements(found) == Elements(done) + {block}
    ensures forall j :: 0 < j < |found| ==> found[j] in done
    ensures forall p :: 0 <= p < |done| ==> done[p] in found[1..]
  {
    forall j | 0 < j < |found| ensures found[j] in done {
      assert found[j] in Elements(found);
    }
    forall p | 0 <= p < |done| ensures done[p] in found[1..] {
      assert done[p] in Elements(done) && done[p] in found;
    }
  }

  lemma OrdersContinue(g: Graph, block: nat, seen: set<nat>, i: nat, found: seq<nat>, done: seq<nat>,
                       found': seq<nat>, done': seq<nat>)
    requires Partial(g, block, seen, i, found, done) && i < |g[block]|
    requires g[block][i] !in seen + Elements(found)
    requires Discovers(g, g[block][i], seen + Elements(found), found')
    requires Elements(done') == Elements(found') && InPostOrder(g, seen + Elements(found), found', done')
    ensures DepthFirst(g, seen, found + found') && InPostOrder(g, seen, found + found', done + done')
  {
    hide Expanded, DepthFirst, InPostOrder, PostOrdered, Discovered;
    RestIsDone(block, found, done);
    FoundContinues(g, block, seen, i, found, found');
    assert forall q :: 0 <= q < |done'| ==> done'[q] in Elements(done');
    DoneContinues(g, seen, found, done, found', done');
  }

  lemma PartialDone(g: Graph, block: nat, seen: set<nat>, i: nat, found: seq<nat>, done: seq<nat>,
                    found': seq<nat>, done': seq<nat>)
    requires Partial(g, block, seen, i, found, done) && i < |g[block]|
    requires g[block][i] !in seen + Elements(found)
    requires Discovers(g, g[block][i], seen + Elements(found), found')
    requires Elements(done') == Elements(found') && PostOrdered(g, seen + Elements(found), done')
    ensures PostOrdered(g, seen, done + done')
  {
    var more := seen + Elements(found);
    var all := done + done';
    forall j | 0 <= j < |all| ensures Settled(g, seen, all[..j], all[j]) {
      if j < |done| {
        assert all[..j] == done[..j];
      } else {
        var u := done'[j - |done|];
        assert all[..j] == done + done'[..j - |done|] && Settled(g, more, done'[..j - |done|], u);
        assert u in Elements(done') && u in found' && Discovered(g, g[block][i], more, u);
        ReachesFromBlock(g, block, g[block][i], u, seen, more);
        AvoidingIsReaching(g, block, u, seen);
        forall v | u < |g| && v in g[u] && v in found && v !in seen ensures v in all[..j] || Reaches(g, v, u) {
          assert v in Elements(done) + {block};
        }
      }
    }
  }

  lemma PartialStep(g: Graph, block: nat, seen: set<nat>, i: nat, found: seq<nat>, done: seq<nat>,
                    found': seq<nat>, done': seq<nat>)
    requires Partial(g, block, seen, i, found, done) && i < |g[block]|
    requires g[block][i] !in seen + Elements(found)
    requires Discovers(g, g[block][i], seen + Elements(found), found')
    requires Distinct(done') && Elements(done') == Elements(found') && PostOrdered(g, seen + Elements(found), done')
    requires InPostOrder(g, seen + Elements(found), found', done')
    ensures Partial(g, block, seen, i + 1, found + found', done + done')
  {
    hide PostOrdered, Discovered, DepthFirst, InPostOrder;
    PartialFound(g, block, seen, i, found, done, found');
    OrdersContinue(g, block, seen, i, found, done, found', done');
    PartialDone(g, block, seen, i, found, done, found', done');
    NewOnes(g, g[block][i], seen + Elements(found), found');
    assert Elements(done) !! Elements(done') by {
      assert Elements(done) <= Elements(found);
    }
    DistinctAppend(done, done');
    assert seen + Elements(found) + Elements(found') == seen + Elements(found + found');
    assert found'[0] in Elements(found');
    assert block in Elements(found);
    assert block !in Elements(done');
    forall u | u in done + done' ensures Expanded(g, u, seen + Elements(found + found')) {
      if u in done {
      } else {
        assert u in Elements(done');
      }
    }
  }

  lemma NewOnes(g: Graph, c: nat, more: set<nat>, found': seq<nat>)
    requires c !in more && Discovers(g, c, more, found')
    ensures Elements(found') !! more
  {
  }

  lemma PartialFinish(g: Graph, block: nat, seen: set<nat>, found: seq<nat>, done: seq<nat>)
    requires block < |g| && Partial(g, block, seen, |g[block]|, found, done)
    ensures Discovers(g, block, seen, found)
    ensures Distinct(done + [block]) && Elements(done + [block]) == Elements(found)
    ensures PostOrdered(g, seen, done + [block]) && InPostOrder(g, seen, found, done + [block])
  {
    hide DepthFirst, InPostOrder;
    RestIsDone(block, found, done);
    StartFinishesLast(g, seen, found, done);
    var all := done + [block];
    forall u | u in found ensures Expanded(g, u, seen + Elements(found)) {
      assert u in Elements(done) + {block};
    }
    forall j | 0 <= j < |all| ensures Settled(g, seen, all[..j], all[j]) {
      assert all[..j] == done[..j];
      if j == |done| {
        assert done[..j] == done;
        assert Settled(g, seen, done, block) by {
          PathToSelf(g, block, {});
          forall v | v in g[block] && v !in seen ensures v in done || Reaches(g, v, block) {
            assert v in Elements(done) + {block};
          }
        }
      }
    }
    assert Elements(all) == Elements(done) + {block};
  }

  // ---------- the visitor ----------

  class CFGVisitor {
    var mBlocksVisited: seq<nat>
    var mExecuted: seq<nat>  // the blocks the action was executed on, in order

    constructor ()
      ensures mBlocksVisited == [] && mExecuted == []
    {
      mBlocksVisited, mExecuted := [], [];
    }

    /** Visits the graph from its first block, once. The list of visited blocks is not cleared. */
    method Visit(cfg: ControlFlowGraph, postOrderVisit: bool)
      returns (ghost found: seq<nat>, ghost done: seq<nat>)
      requires cfg.Valid() && |cfg.mBlocks| > 0
      modifies this
      ensures mBlocksVisited == old(mBlocksVisited) + found && mExecuted == old(mExecuted) + done
      ensures Discovers(cfg.mBlocks, 0, Elements(old(mBlocksVisited)), found)
      ensures Distinct(done) && Elements(done) == Elements(found)
      ensures postOrderVisit ==> PostOrdered(cfg.mBlocks, Elements(old(mBlocksVisited)), done)
      ensures postOrderVisit ==> InPostOrder(cfg.mBlocks, Elements(old(mBlocksVisited)), found, done)
      ensures !postOrderVisit ==> done == found
    {
      if postOrderVisit {
        found, done := RecursiveDFSVisitPostOrder(cfg.mBlocks, 0);
      } else {
        found, done := RecursiveDFSVisitPreOrder(cfg.mBlocks, 0);
        done := found;
      }
    }

    method RecursiveDFSVisitPostOrder(g: Graph, block: nat) returns (ghost found: seq<nat>, ghost done: seq<nat>)
      requires WellFormed(g) && block < |g|
      modifies this
      ensures mBlocksVisited == old(mBlocksVisited) + found && mExecuted == old(mExecuted) + done
      ensures Discovers(g, block, Elements(old(mBlocksVisited)), found)
      ensures Distinct(done) && Elements(done) == Elements(found)
      ensures PostOrdered(g, Elements(old(mBlocksVisited)), done)
      ensures InPostOrder(g, Elements(old(mBlocksVisited)), found, done)
      decreases Unvisited(g, mBlocksVisited), block in mBlocksVisited
    {
      hide Discovers, Partial, PostOrdered, InPostOrder, Distinct;
      ghost var seen := Elements(mBlocksVisited);
      mBlocksVisited := mBlocksVisited + [block];
      found, done := [block], [];
      PartialStart(g, block, seen);
      var i := 0;
      while i < |g[block]|
        invariant 0 <= i <= |g[block]|
        invariant mBlocksVisited == old(mBlocksVisited) + found && mExecuted == old(mExecuted) + done
        invariant block in found && Partial(g, block, seen, i, found, done)
      {
        var next := g[block][i];
        SeenOrFound(old(mBlocksVisited), found, next);
        if next !in mBlocksVisited {
          LessUnvisited(g, old(mBlocksVisited), mBlocksVisited, block);
          ghost var found', done' := RecursiveDFSVisitPostOrder(g, next);
          PartialStep(g, block, seen, i, found, done, found', done');
          found, done := found + found', done + done';
        } else {
          PartialSkip(g, block, seen, i, found, done);
        }
        i := i + 1;
      }
      mExecuted := mExecuted + [block];
      PartialFinish(g, block, seen, found, done);
      done := done + [block];
    }

    /** The action is executed in the order of discovery; `done` is the order in which the
        recursive visits return. */
    method RecursiveDFSVisitPreOrder(g: Graph, block: nat) returns (ghost found: seq<nat>, ghost done: seq<nat>)
      requires WellFormed(g) && block < |g|
      modifies this
      ensures mBlocksVisited == old(mBlocksVisited) + found && mExecuted == old(mExecuted) + found
      ensures Discovers(g, block, Elements(old(mBlocksVisited)), found)
      ensures Distinct(done) && Elements(done) == Elements(found)
      ensures PostOrdered(g, Elements(old(mBlocksVisited)), done)
      ensures InPostOrder(g, Elements(old(mBlocksVisited)), found, done)
      decreases Unvisited(g, mBlocksVisited), block in mBlocksVisited
    {
      hide Discovers, Partial, PostOrdered, InPostOrder, Distinct;
      ghost var seen := Elements(mBlocksVisited);
      mBlocksVisited := mBlocksVisited + [block];
      mExecuted := mExecuted + [block];
      found, done := [block], [];
      PartialStart(g, block, seen);
      var i := 0;
      while i < |g[block]|
        invariant 0 <= i <= |g[block]|
        invariant mBlocksVisited == old(mBlocksVisited) + found && mExecuted == old(mExecuted) + found
        invariant block in found && Partial(g, block, seen, i, found, done)
      {
        var next := g[block][i];
        SeenOrFound(old(mBlocksVisited), found, next);
        if next !in mBlocksVisited {
          LessUnvisited(g, old(mBlocksVisited), mBlocksVisited, block);
          ghost var found', done' := RecursiveDFSVisitPreOrder(g, next);
          PartialStep(g, block, seen, i, found, done, found', done');
          found, done := found + found', done + done';
        } else {
          PartialSkip(g, block, seen, i, found, done);
        }
        i := i + 1;
      }
      PartialFinish(g, block, seen, found, done);
      done := done + [block];
    }
  }

  /** The blocks still to be visited: what bounds the recursion, cycles or not. */
  ghost function Unvisited(g: Graph, visited: seq<nat>): set<nat> {
    set b: nat | b < |g| && b !in visited
  }

  lemma SeenOrFound(visited: seq<nat>, found: seq<nat>, b: nat)
    ensures Elements(visited + found) == Elements(visited) + Elements(found)
    ensures b in visited + found <==> b in Elements(visited) + Elements(found)
  {
  }

  lemma LessUnvisited(g: Graph, before: seq<nat>, after: seq<nat>, block: nat)
    requires block < |g| && block in after && forall b :: b in before ==> b in after
    ensures Unvisited(g, after) <= Unvisited(g, before)
    ensures block !in before ==> Unvisited(g, after) < Unvisited(g, before)
  {
    if block !in before {
      assert block in Unvisited(g, before) && block !in Unvisited(g, after);
    }
  }

  // ---------- what a visit amounts to ----------

  /** A visit finds exactly the blocks that can be reached through blocks not seen before. */
  lemma DiscoversExactly(g: Graph, entry: nat, seen: set<nat>, found: seq<nat>, b: nat)
    requires WellFormed(g) && Discovers(g, entry, seen, found)
    ensures b in found <==> ReachesAvoiding(g, entry, b, seen)
  {
    if ReachesAvoiding(g, entry, b, seen) {
      var p :| IsPath(g, p, entry, b, seen);
      assert entry in Elements(found);
      forall u, v | u in Elements(found) && u < |g| && v in g[u] && v !in seen ensures v in Elements(found) {
        assert Expanded(g, u, seen + Elements(found));
      }
      ClosedHoldsReachable(g, Elements(found), entry, b, p, seen);
    }
  }

  /** The order of a visit is determined, block by block, by the entry, the successor lists and the
      blocks seen before. */
  lemma VisitIsDetermined(g: Graph, entry: nat, seen: set<nat>, found: seq<nat>, done: seq<nat>,
                          found': seq<nat>, done': seq<nat>)
    requires Discovers(g, entry, seen, found) && Discovers(g, entry, seen, found')
    requires Distinct(done) && Elements(done) == Elements(found) && InPostOrder(g, seen, found, done)
    requires Distinct(done') && Elements(done') == Elements(found') && InPostOrder(g, seen, found', done')
    ensures found == found' && done == done'
  {
    hide Expanded, DepthFirst, InPostOrder, Discovered;
    OrdersAreDetermined(g, seen, found, done, found', done');
  }

  /** A visit with an empty list executes the action exactly once on every block that can be
      reached from the entry, and on no other. */
  lemma FirstVisitExecutesReachable(g: Graph, entry: nat, found: seq<nat>, done: seq<nat>)
    requires WellFormed(g) && Discovers(g, entry, {}, found) && Distinct(done) && Elements(done) == Elements(found)
    ensures forall b :: multiset(done)[b] == if Reaches(g, entry, b) then 1 else 0
  {
    forall b ensures multiset(done)[b] == if Reaches(g, entry, b) then 1 else 0 {
      DiscoversExactly(g, entry, {}, found, b);
      CountDistinct(done, b);
      assert b in done <==> b in Elements(done);
      assert b in found <==> b in Elements(found);
    }
  }

  lemma {:induction false} CountDistinct(s: seq<nat>, b: nat)
    requires Distinct(s)
    ensures multiset(s)[b] == if b in s then 1 else 0
  {
    if s != [] {
      var last := |s| - 1;
      assert s == s[..last] + [s[last]];
      CountDistinct(s[..last], b);
    }
  }

  /** In post-order, a successor executed after its predecessor leads back to it. */
  lemma LateSuccessorClosesCycle(g: Graph, done: seq<nat>, i: nat, j: nat)
    requires PostOrdered(g, {}, done) && Distinct(done)
    requires i < j < |done| && done[i] < |g| && done[j] in g[done[i]]
    ensures Reaches(g, done[j], done[i])
  {
    assert Settled(g, {}, done[..i], done[i]);
  }

  /** On an acyclic graph post-order is a reverse topological order: whatever can be reached from
      a block is executed before it. */
  lemma AcyclicPostOrder(g: Graph, done: seq<nat>, i: nat, b: nat)
    requires Acyclic(g) && PostOrdered(g, {}, done) && i < |done| && Reaches(g, done[i], b)
    ensures b in done[..i + 1] && (b != done[i] ==> b in done[..i])
  {
    var p :| IsPath(g, p, done[i], b, {});
    PathIsExecuted(g, done, i, b, p);
  }

  lemma {:induction false} PathIsExecuted(g: Graph, done: seq<nat>, i: nat, b: nat, p: seq<nat>)
    requires Acyclic(g) && PostOrdered(g, {}, done) && i < |done| && IsPath(g, p, done[i], b, {})
    ensures b in done[..i + 1]
    decreases |p|
  {
    if |p| == 1 {
      assert done[..i + 1][i] == b;
    } else {
      var c := p[|p| - 2];
      PathIsExecuted(g, done, i, c, p[..|p| - 1]);
      var k :| 0 <= k < i + 1 && done[..i + 1][k] == c;
      assert Settled(g, {}, done[..k], done[k]);
      assert b in done[..k] && done[..k] <= done[..i + 1];
    }
  }

  /** Visiting again: every block is still visited at most once if and only if the entry was not
      in the list yet. A first visit puts it there, so a second visit of the same graph executes
      the action on the entry again, and on nothing else. */
  lemma VisitingAgain(g: Graph, entry: nat, visited: seq<nat>, found: seq<nat>)
    requires WellFormed(g) && Distinct(visited) && Discovers(g, entry, Elements(visited), found)
    ensures Distinct(visited + found) <==> entry !in visited
    ensures entry in visited && (forall u, v :: u in visited && u < |g| && v in g[u] ==> v in visited) ==> found == [entry]
  {
    if entry in visited {
      var k :| 0 <= k < |visited| && visited[k] == entry;
      assert (visited + found)[k] == (visited + found)[|visited|];
      if forall u, v :: u in visited && u < |g| && v in g[u] ==> v in visited {
        forall b | b in found ensures b == entry {
          var p :| IsPath(g, p, entry, b, Elements(visited));
          ClosedHoldsReachable(g, Elements(visited), entry, b, p, Elements(visited));
        }
        var last := found[|found| - 1];
        assert last in found && found[0] == last;
      }
    } else {
      assert Elements(visited) !! Elements(found);
      DistinctAppend(visited, found);
    }
  }
}
