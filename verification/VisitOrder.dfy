/** The order in which a depth-first visit finds blocks and finishes them, as a property of the two
    orders themselves, and that it leaves no choice. */
module VisitOrder {
  import opened ControlFlowGraph

  ghost function Elements(s: seq<nat>): set<nat> {
    set b | b in s
  }

  ghost predicate Distinct(s: seq<nat>) {
    forall i, j :: 0 <= i < j < |s| ==> s[i] != s[j]
  }

  /** All successors of the block are visited. */
  ghost predicate Expanded(g: Graph, u: nat, visited: set<nat>) {
    u < |g| ==> forall v :: v in g[u] ==> v in visited
  }

  /** `b` is the first successor of `u` that is not visited. */
  ghost predicate FirstNew(g: Graph, u: nat, visited: set<nat>, b: nat) {
    u < |g| && exists k :: 0 <= k < |g[u]| && IsFirstNew(g[u], visited, k, b)
  }

  ghost predicate IsFirstNew(successors: seq<nat>, visited: set<nat>, k: nat, b: nat)
    requires k < |successors|
  {
    successors[k] == b && b !in visited && forall l :: 0 <= l < k ==> successors[l] in visited
  }

  /** After the blocks `before`, `b` is found from the latest of them that has a successor left. */
  ghost predicate FoundFrom(g: Graph, visited: set<nat>, before: seq<nat>, i: nat, b: nat) {
    && i < |before| && FirstNew(g, before[i], visited, b)
    && (forall j :: i < j < |before| ==> Expanded(g, before[j], visited))
  }

  ghost predicate Follows(g: Graph, seen: set<nat>, before: seq<nat>, b: nat) {
    exists i: nat :: FoundFrom(g, seen + Elements(before), before, i, b)
  }

  /** Every block but the first is the first new successor of the latest block found before it that
      has a new successor. */
  ghost predicate DepthFirst(g: Graph, seen: set<nat>, found: seq<nat>) {
    forall k :: 0 < k < |found| ==> Follows(g, seen, found[..k], found[k])
  }

  /** When the `k`-th block was found, one of those found from the `a`-th on had a new successor. */
  ghost predicate StillVisiting(g: Graph, seen: set<nat>, found: seq<nat>, a: nat, k: nat)
    requires k <= |found|
  {
    exists l: nat :: a <= l < k && !Expanded(g, found[l], seen + Elements(found[..k]))
  }

  /** The `b`-th block was found during the visit of the `a`-th. */
  ghost predicate Within(g: Graph, seen: set<nat>, found: seq<nat>, a: nat, b: nat)
    requires b < |found|
  {
    forall k: nat :: a < k <= b ==> StillVisiting(g, seen, found, a, k)
  }

  /** The visit of the `a`-th block found returns before that of the `b`-th. */
  ghost predicate Finishes(g: Graph, seen: set<nat>, found: seq<nat>, a: nat, b: nat)
    requires a < |found| && b < |found|
  {
    if a < b then !Within(g, seen, found, a, b) else b < a && Within(g, seen, found, b, a)
  }

  ghost predicate Before(g: Graph, seen: set<nat>, found: seq<nat>, x: nat, y: nat) {
    exists a: nat, b: nat :: 0 <= a < |found| && 0 <= b < |found| && found[a] == x && found[b] == y && Finishes(g, seen, found, a, b)
  }

  /** `done` lists the blocks in the order in which their visits return. */
  ghost predicate InPostOrder(g: Graph, seen: set<nat>, found: seq<nat>, done: seq<nat>) {
    forall p, q :: 0 <= p < q < |done| ==> Before(g, seen, found, done[p], done[q])
  }

  // ---------- one turn of the loop over the successors ----------

  lemma ElementsAppend(s: seq<nat>, t: seq<nat>)
    ensures Elements(s + t) == Elements(s) + Elements(t)
  {
  }

  /** The blocks found in the visit of the next new successor continue the order. */
  lemma FoundContinues(g: Graph, block: nat, seen: set<nat>, i: nat, found: seq<nat>, found': seq<nat>)
    requires block < |g| && i < |g[block]| && |found| > 0 && found[0] == block
    requires forall l :: 0 <= l < i ==> g[block][l] in seen + Elements(found)
    requires forall j :: 0 < j < |found| ==> Expanded(g, found[j], seen + Elements(found))
    requires g[block][i] !in seen + Elements(found) && |found'| > 0 && found'[0] == g[block][i]
    requires DepthFirst(g, seen, found) && DepthFirst(g, seen + Elements(found), found')
    ensures DepthFirst(g, seen, found + found')
  {
    hide Expanded, Elements;
    var all, more := found + found', seen + Elements(found);
    forall k | 0 < k < |all| ensures Follows(g, seen, all[..k], all[k]) {
      if k < |found| {
        assert all[..k] == found[..k];
      } else if k == |found| {
        assert all[..k] == found;
        assert IsFirstNew(g[block], more, i, all[k]);
        assert FoundFrom(g, more, found, 0, all[k]);
      } else {
        var n := k - |found|;
        assert all[..k] == found + found'[..n];
        ElementsAppend(found, found'[..n]);
        assert seen + Elements(all[..k]) == more + Elements(found'[..n]);
        assert Follows(g, more, found'[..n], found'[n]);
        var j: nat :| FoundFrom(g, more + Elements(found'[..n]), found'[..n], j, found'[n]);
        assert FoundFrom(g, seen + Elements(all[..k]), all[..k], |found| + j, all[k]);
      }
    }
  }

  /** Whether one block was found during the visit of another does not depend on what is found
      later. */
  lemma WithinExtends(g: Graph, seen: set<nat>, found: seq<nat>, found': seq<nat>, a: nat, b: nat)
    requires a <= b < |found|
    ensures Within(g, seen, found + found', a, b) <==> Within(g, seen, found, a, b)
  {
    hide Expanded, Elements;
    forall k: nat | a < k <= b
      ensures StillVisiting(g, seen, found + found', a, k) <==> StillVisiting(g, seen, found, a, k)
    {
      assert (found + found')[..k] == found[..k];
    }
  }

  /** Nor on what was found before, when that counts as seen. */
  lemma WithinShifts(g: Graph, seen: set<nat>, found: seq<nat>, found': seq<nat>, a: nat, b: nat)
    requires a <= b < |found'|
    ensures Within(g, seen, found + found', |found| + a, |found| + b) <==> Within(g, seen + Elements(found), found', a, b)
  {
    hide StillVisiting, Elements;
    var all := found + found';
    if Within(g, seen, all, |found| + a, |found| + b) {
      forall k | a < k <= b ensures StillVisiting(g, seen + Elements(found), found', a, k) {
        StillVisitingShifts(g, seen, found, found', a, k);
        assert StillVisiting(g, seen, all, |found| + a, |found| + k);
      }
    }
    if Within(g, seen + Elements(found), found', a, b) {
      var start, stop := |found| + a, |found| + b;
      forall k: nat | start < k <= stop ensures StillVisiting(g, seen, all, start, k) {
        StillVisitingShifts(g, seen, found, found', a, k - |found|);
      }
    }
  }

  lemma StillVisitingShifts(g: Graph, seen: set<nat>, found: seq<nat>, found': seq<nat>, a: nat, k: nat)
    requires k <= |found'|
    ensures StillVisiting(g, seen, found + found', |found| + a, |found| + k) <==>
              StillVisiting(g, seen + Elements(found), found', a, k)
  {
    hide Expanded, Elements;
    var all, n := found + found', |found|;
    assert all[..n + k] == found + found'[..k];
    ElementsAppend(found, found'[..k]);
    assert seen + Elements(all[..n + k]) == seen + Elements(found) + Elements(found'[..k]);
    if StillVisiting(g, seen, all, n + a, n + k) {
      var l: nat :| n + a <= l < n + k && !Expanded(g, all[l], seen + Elements(all[..n + k]));
      assert found'[l - n] == all[l];
    }
    if StillVisiting(g, seen + Elements(found), found', a, k) {
      var l: nat :| a <= l < k && !Expanded(g, found'[l], seen + Elements(found) + Elements(found'[..k]));
      assert all[n + l] == found'[l];
    }
  }

  lemma BeforeExtends(g: Graph, seen: set<nat>, found: seq<nat>, found': seq<nat>, x: nat, y: nat)
    requires Before(g, seen, found, x, y)
    ensures Before(g, seen, found + found', x, y)
  {
    hide Within;
    var a: nat, b: nat :| 0 <= a < |found| && 0 <= b < |found| && found[a] == x && found[b] == y && Finishes(g, seen, found, a, b);
    WithinExtends(g, seen, found, found', if a < b then a else b, if a < b then b else a);
    assert (found + found')[a] == x && (found + found')[b] == y && Finishes(g, seen, found + found', a, b);
  }

  lemma BeforeShifts(g: Graph, seen: set<nat>, found: seq<nat>, found': seq<nat>, x: nat, y: nat)
    requires Before(g, seen + Elements(found), found', x, y)
    ensures Before(g, seen, found + found', x, y)
  {
    hide Within;
    var n := |found|;
    var a: nat, b: nat :| 0 <= a < |found'| && 0 <= b < |found'| && found'[a] == x && found'[b] == y
                && Finishes(g, seen + Elements(found), found', a, b);
    WithinShifts(g, seen, found, found', if a < b then a else b, if a < b then b else a);
    assert (found + found')[n + a] == x && (found + found')[n + b] == y && Finishes(g, seen, found + found', n + a, n + b);
  }

  /** A block all of whose visit is over finishes before all that is found then. */
  lemma FinishedBefore(g: Graph, seen: set<nat>, found: seq<nat>, found': seq<nat>, a: nat, b: nat)
    requires 0 < a < |found| && b < |found'|
    requires forall j :: 0 < j < |found| ==> Expanded(g, found[j], seen + Elements(found))
    ensures Before(g, seen, found + found', found[a], found'[b])
  {
    hide Expanded, Elements;
    var all, n := found + found', |found|;
    assert all[..n] == found;
    assert !StillVisiting(g, seen, all, a, n);
    assert !Within(g, seen, all, a, n + b);
    assert Finishes(g, seen, all, a, n + b) && all[a] == found[a] && all[n + b] == found'[b];
  }

  /** The blocks finished in the visit of the next new successor continue the post-order. */
  lemma DoneContinues(g: Graph, seen: set<nat>, found: seq<nat>, done: seq<nat>, found': seq<nat>, done': seq<nat>)
    requires InPostOrder(g, seen, found, done) && InPostOrder(g, seen + Elements(found), found', done')
    requires forall j :: 0 < j < |found| ==> Expanded(g, found[j], seen + Elements(found))
    requires |found| > 0 && forall p :: 0 <= p < |done| ==> done[p] in found[1..]
    requires forall q :: 0 <= q < |done'| ==> done'[q] in found'
    ensures InPostOrder(g, seen, found + found', done + done')
  {
    hide Expanded, Elements, Before;
    var all := done + done';
    forall p, q | 0 <= p < q < |all| ensures Before(g, seen, found + found', all[p], all[q]) {
      if q < |done| {
        BeforeExtends(g, seen, found, found', done[p], done[q]);
      } else if p >= |done| {
        BeforeShifts(g, seen, found, found', done'[p - |done|], done'[q - |done|]);
      } else {
        assert done[p] in found[1..];
        var a: nat :| 0 <= a < |found| - 1 && found[1..][a] == done[p];
        assert done'[q - |done|] in found';
        var b: nat :| 0 <= b < |found'| && found'[b] == done'[q - |done|];
        FinishedBefore(g, seen, found, found', a + 1, b);
      }
    }
  }

  /** The block a visit starts from finishes last. */
  lemma StartFinishesLast(g: Graph, seen: set<nat>, found: seq<nat>, done: seq<nat>)
    requires |found| > 0 && DepthFirst(g, seen, found) && InPostOrder(g, seen, found, done)
    requires forall p :: 0 <= p < |done| ==> done[p] in found[1..]
    ensures InPostOrder(g, seen, found, done + [found[0]])
  {
    hide Expanded, Elements, Before;
    var all := done + [found[0]];
    forall p, q | 0 <= p < q < |all| ensures Before(g, seen, found, all[p], all[q]) {
      if q == |done| {
        assert done[p] in found[1..];
        var a: nat :| 0 <= a < |found| - 1 && found[1..][a] == done[p];
        WithinStart(g, seen, found, a + 1);
      }
    }
  }

  lemma WithinStart(g: Graph, seen: set<nat>, found: seq<nat>, a: nat)
    requires 0 < a < |found| && DepthFirst(g, seen, found)
    ensures Before(g, seen, found, found[a], found[0])
  {
    hide Elements;
    forall k | 0 < k <= a ensures StillVisiting(g, seen, found, 0, k) {
      assert Follows(g, seen, found[..k], found[k]);
      var i: nat :| FoundFrom(g, seen + Elements(found[..k]), found[..k], i, found[k]);
      assert !Expanded(g, found[i], seen + Elements(found[..k]));
    }
    assert Finishes(g, seen, found, a, 0);
  }

  /** What is found during one visit is found, and finished, without anything else in between. */
  lemma VisitIsContiguous(g: Graph, seen: set<nat>, found: seq<nat>, a: nat, b: nat, c: nat)
    requires a < b < |found| && Within(g, seen, found, a, b) && c < |found|
    ensures a <= c <= b ==> Within(g, seen, found, a, c)
    ensures Finishes(g, seen, found, b, c) && Finishes(g, seen, found, c, a) ==> a < c && Within(g, seen, found, a, c)
  {
    if c < a && Within(g, seen, found, c, b) {
      assert Within(g, seen, found, c, a);
    }
    hide StillVisiting;
  }

  // ---------- no choice is left ----------

  lemma FollowsIsUnique(g: Graph, seen: set<nat>, before: seq<nat>, b: nat, b': nat)
    requires Follows(g, seen, before, b) && Follows(g, seen, before, b')
    ensures b == b'
  {
    hide Elements;
    var visited := seen + Elements(before);
    var i: nat :| FoundFrom(g, visited, before, i, b);
    var i': nat :| FoundFrom(g, visited, before, i', b');
    assert !Expanded(g, before[i], visited) && !Expanded(g, before[i'], visited);
    assert i == i';
    var k: nat :| 0 <= k < |g[before[i]]| && IsFirstNew(g[before[i]], visited, k, b);
    var k': nat :| 0 <= k' < |g[before[i]]| && IsFirstNew(g[before[i]], visited, k', b');
  }

  /** A visit that is over, and one that is at least as long as far as the first goes. */
  lemma {:induction false} PrefixesAgree(g: Graph, seen: set<nat>, found: seq<nat>, found': seq<nat>, k: nat)
    requires 0 < k <= |found| && k <= |found'| && found[0] == found'[0]
    requires DepthFirst(g, seen, found) && DepthFirst(g, seen, found')
    ensures found[..k] == found'[..k]
  {
    hide Follows;
    if k > 1 {
      PrefixesAgree(g, seen, found, found', k - 1);
      assert Follows(g, seen, found[..k - 1], found[k - 1]) && Follows(g, seen, found'[..k - 1], found'[k - 1]);
      FollowsIsUnique(g, seen, found[..k - 1], found[k - 1], found'[k - 1]);
      assert found[..k] == found[..k - 1] + [found[k - 1]] && found'[..k] == found'[..k - 1] + [found'[k - 1]];
    }
  }

  lemma NothingFollows(g: Graph, seen: set<nat>, found: seq<nat>, b: nat)
    requires forall u :: u in found ==> Expanded(g, u, seen + Elements(found))
    ensures !Follows(g, seen, found, b)
  {
    hide Elements;
    forall i: nat ensures !FoundFrom(g, seen + Elements(found), found, i, b) {
      if i < |found| {
        assert found[i] in found;
      }
    }
  }

  lemma NotLonger(g: Graph, seen: set<nat>, found: seq<nat>, found': seq<nat>)
    requires |found| > 0 && |found'| > 0 && found[0] == found'[0]
    requires DepthFirst(g, seen, found) && DepthFirst(g, seen, found')
    requires forall u :: u in found ==> Expanded(g, u, seen + Elements(found))
    ensures |found'| <= |found|
  {
    hide Elements, Follows;
    var n := |found|;
    if |found'| > n {
      PrefixesAgree(g, seen, found, found', n);
      assert found'[..n] == found[..n] == found;
      NothingFollows(g, seen, found, found'[n]);
    }
  }

  lemma BeforeIsStrict(g: Graph, seen: set<nat>, found: seq<nat>, x: nat, y: nat)
    requires Distinct(found) && Before(g, seen, found, x, y)
    ensures !Before(g, seen, found, y, x)
  {
    hide Within;
  }

  lemma NoElements(s: seq<nat>)
    ensures s == [] <==> Elements(s) == {}
  {
    if s != [] {
      assert s[0] in Elements(s);
    }
  }

  /** Two lists of the same blocks in the same strict order are equal. */
  lemma {:induction false} PostOrderIsUnique(g: Graph, seen: set<nat>, found: seq<nat>, done: seq<nat>, done': seq<nat>)
    requires Distinct(found) && Distinct(done) && Distinct(done') && Elements(done) == Elements(done')
    requires InPostOrder(g, seen, found, done) && InPostOrder(g, seen, found, done')
    ensures done == done'
    decreases |done|
  {
    hide Before;
    NoElements(done);
    NoElements(done');
    if done != [] {
      var x, y := done[0], done'[0];
      assert x in Elements(done') && y in Elements(done);
      if x != y {
        assert Before(g, seen, found, x, y) && Before(g, seen, found, y, x);
        BeforeIsStrict(g, seen, found, x, y);
        assert false;
      }
      assert forall b :: b in Elements(done[1..]) <==> b in Elements(done) && b != x;
      assert forall b :: b in Elements(done'[1..]) <==> b in Elements(done') && b != x;
      PostOrderIsUnique(g, seen, found, done[1..], done'[1..]);
    }
  }

  /** Start, successor lists and blocks seen before determine both orders of a visit that is over. */
  lemma OrdersAreDetermined(g: Graph, seen: set<nat>, found: seq<nat>, done: seq<nat>, found': seq<nat>, done': seq<nat>)
    requires |found| > 0 && |found'| > 0 && found[0] == found'[0]
    requires Distinct(found) && Distinct(done) && Distinct(done')
    requires DepthFirst(g, seen, found) && DepthFirst(g, seen, found')
    requires forall u :: u in found ==> Expanded(g, u, seen + Elements(found))
    requires forall u :: u in found' ==> Expanded(g, u, seen + Elements(found'))
    requires Elements(done) == Elements(found) && Elements(done') == Elements(found')
    requires InPostOrder(g, seen, found, done) && InPostOrder(g, seen, found', done')
    ensures found == found' && done == done'
  {
    hide DepthFirst, InPostOrder, Expanded, Elements;
    NotLonger(g, seen, found, found');
    NotLonger(g, seen, found', found);
    PrefixesAgree(g, seen, found, found', |found|);
    assert found == found[..|found|] && found' == found'[..|found|];
    PostOrderIsUnique(g, seen, found, done, done');
  }
}
