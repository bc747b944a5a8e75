/** Control flow graphs: blocks, identified by their position, and their successor lists. Any
    graph is allowed, cycles, self loops and repeated branches included. */
module ControlFlowGraph {

  type Graph = seq<seq<nat>>

  /** Every branch leads to a block of the graph. */
  ghost predicate WellFormed(g: Graph) {
    forall b :: 0 <= b < |g| ==> forall k :: 0 <= k < |g[b]| ==> g[b][k] < |g|
  }

  /** `p` is a path from `a` to `b` whose blocks after the first are all outside `avoid`. */
  ghost predicate IsPath(g: Graph, p: seq<nat>, a: nat, b: nat, avoid: set<nat>)
    decreases |p|
  {
    if |p| == 1 then p[0] == a == b && a < |g|
    else
      && |p| > 1 && p[|p| - 1] == b && b !in avoid
      && IsPath(g, p[..|p| - 1], a, p[|p| - 2], avoid)
      && p[|p| - 2] < |g| && b in g[p[|p| - 2]]
  }

  ghost predicate ReachesAvoiding(g: Graph, a: nat, b: nat, avoid: set<nat>) {
    exists p :: IsPath(g, p, a, b, avoid)
  }

  ghost predicate Reaches(g: Graph, a: nat, b: nat) {
    ReachesAvoiding(g, a, b, {})
  }

  /** No block lies on a cycle. */
  ghost predicate Acyclic(g: Graph) {
    forall a, b :: 0 <= a < |g| && b in g[a] ==> !Reaches(g, b, a)
  }

  lemma PathToSelf(g: Graph, a: nat, avoid: set<nat>)
    requires a < |g|
    ensures ReachesAvoiding(g, a, a, avoid)
  {
    assert IsPath(g, [a], a, a, avoid);
  }

  lemma ExtendPath(g: Graph, a: nat, b: nat, c: nat, avoid: set<nat>)
    requires ReachesAvoiding(g, a, b, avoid) && b < |g| && c in g[b] && c !in avoid
    ensures ReachesAvoiding(g, a, c, avoid)
  {
    var p :| IsPath(g, p, a, b, avoid);
    var q := p + [c];
    assert q[..|q| - 1] == p && p[|p| - 1] == b;
    assert IsPath(g, q, a, c, avoid);
  }

  /** A path from `b` that avoids more, prolonged at its start by a path to `b`. */
  lemma {:induction false} JoinPaths(g: Graph, a: nat, b: nat, c: nat, p: seq<nat>, more: set<nat>, avoid: set<nat>)
    requires ReachesAvoiding(g, a, b, avoid) && IsPath(g, p, b, c, more) && avoid <= more
    ensures ReachesAvoiding(g, a, c, avoid)
    decreases |p|
  {
    if |p| > 1 {
      JoinPaths(g, a, b, p[|p| - 2], p[..|p| - 1], more, avoid);
      ExtendPath(g, a, p[|p| - 2], c, avoid);
    }
  }

  /** A set of blocks that holds `a` and is closed under branches, except into `avoid`, holds
      every block that can be reached. */
  lemma {:induction false} ClosedHoldsReachable(g: Graph, closed: set<nat>, a: nat, b: nat, p: seq<nat>, avoid: set<nat>)
    requires a in closed && IsPath(g, p, a, b, avoid)
    requires forall u, v :: u in closed && u < |g| && v in g[u] && v !in avoid ==> v in closed
    ensures b in closed
    decreases |p|
  {
    if |p| > 1 {
      ClosedHoldsReachable(g, closed, a, p[|p| - 2], p[..|p| - 1], avoid);
    }
  }

  class ControlFlowGraph {
    var mBlocks: Graph

    ghost predicate Valid()
      reads this
    {
      WellFormed(mBlocks)
    }

    constructor ()
      ensures Valid() && mBlocks == []
    {
      mBlocks := [];
    }

    method CreateNewBlock() returns (block: nat)
      requires Valid()
      modifies this
      ensures Valid() && block == |old(mBlocks)| && mBlocks == old(mBlocks) + [[]]
    {
      block := |mBlocks|;
      mBlocks := mBlocks + [[]];
    }

    method InsertBranch(from: nat, target: nat)
      requires Valid() && from < |mBlocks| && target < |mBlocks|
      modifies this
      ensures Valid() && mBlocks == old(mBlocks)[from := old(mBlocks)[from] + [target]]
    {
      mBlocks := mBlocks[from := mBlocks[from] + [target]];
    }
  }
}
