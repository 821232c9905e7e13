/**
 Finite directed graphs, given as a map from each node to the set of its successors.
 A node outside the map has no successors.

 Three facts carry the graph proofs of the other modules: a ranked graph has no cycle,
 a non-empty set in which every node has a successor contains a simple cycle, and the least
 closed set above some roots is the set of nodes reachable from them.
 */
module Reachability {

  type Edges<T> = map<T, set<T>>

  ghost predicate HasEdge<T>(edges: Edges<T>, x: T, y: T) {
    x in edges && y in edges[x]
  }

  ghost predicate Distinct<T>(s: seq<T>) {
    forall i, j :: 0 <= i < j < |s| ==> s[i] != s[j]
  }

  ghost predicate IsPath<T>(edges: Edges<T>, p: seq<T>) {
    && |p| > 0
    && forall i :: 0 <= i < |p| - 1 ==> HasEdge(edges, p[i], p[i + 1])
  }

  /** A cycle lists its nodes once round: the last one has an edge back to the first. */
  ghost predicate IsCycle<T>(edges: Edges<T>, c: seq<T>) {
    IsPath(edges, c) && HasEdge(edges, c[|c| - 1], c[0])
  }

  ghost predicate Acyclic<T(!new)>(edges: Edges<T>) {
    forall c: seq<T> :: !IsCycle(edges, c)
  }

  /** A rank drops along every edge that stays inside the graph. */
  ghost predicate Ranked<T>(edges: Edges<T>, rank: map<T, nat>) {
    && rank.Keys == edges.Keys
    && forall x, y :: x in edges && y in edges[x] && y in edges ==> rank[y] < rank[x]
  }

  lemma {:induction false} RankDropsAlongPath<T>(edges: Edges<T>, rank: map<T, nat>, p: seq<T>, i: nat)
    requires Ranked(edges, rank) && IsPath(edges, p)
    requires p[|p| - 1] in edges
    requires i < |p|
    ensures p[i] in edges
    ensures rank[p[|p| - 1]] <= rank[p[i]]
    decreases |p| - i
  {
    if i < |p| - 1 {
      RankDropsAlongPath(edges, rank, p, i + 1);
      assert HasEdge(edges, p[i], p[i + 1]);
    }
  }

  lemma RankedIsAcyclic<T(!new)>(edges: Edges<T>, rank: map<T, nat>)
    requires Ranked(edges, rank)
    ensures Acyclic(edges)
  {
    forall c: seq<T> | IsCycle(edges, c)
      ensures false
    {
      RankDropsAlongPath(edges, rank, c, 0);
    }
  }

  ghost predicate HasSuccessorIn<T>(edges: Edges<T>, s: set<T>, x: T) {
    exists y :: y in s && HasEdge(edges, x, y)
  }

  /** Every node of `s` has a successor in `s`: nothing in it can be handled first. */
  ghost predicate Trap<T>(edges: Edges<T>, s: set<T>) {
    forall x {:trigger HasSuccessorIn(edges, s, x)} :: x in s ==> HasSuccessorIn(edges, s, x)
  }

  lemma {:induction false} DistinctFits<T>(p: seq<T>, s: set<T>)
    requires Distinct(p)
    requires forall i :: 0 <= i < |p| ==> p[i] in s
    ensures |p| <= |s|
  {
    if |p| > 0 {
      DistinctFits(p[..|p| - 1], s - {p[|p| - 1]});
    }
  }

  /** Walking on from the end of a simple path inside a trap must eventually bite its own tail. */
  lemma {:induction false} WalkFindsCycle<T>(edges: Edges<T>, s: set<T>, p: seq<T>) returns (c: seq<T>)
    requires Trap(edges, s)
    requires IsPath(edges, p) && Distinct(p)
    requires forall i :: 0 <= i < |p| ==> p[i] in s
    ensures IsCycle(edges, c) && Distinct(c)
    ensures forall i :: 0 <= i < |c| ==> c[i] in s
    decreases |s| - |p|
  {
    DistinctFits(p, s);
    var last := p[|p| - 1];
    assert HasSuccessorIn(edges, s, last);
    var y :| y in s && HasEdge(edges, last, y);
    if i :| 0 <= i < |p| && p[i] == y {
      c := p[i..];
    } else {
      DistinctFits(p + [y], s);
      c := WalkFindsCycle(edges, s, p + [y]);
    }
  }

  lemma TrapHasCycle<T>(edges: Edges<T>, s: set<T>) returns (c: seq<T>)
    requires s != {} && Trap(edges, s)
    ensures IsCycle(edges, c) && Distinct(c)
    ensures forall i :: 0 <= i < |c| ==> c[i] in s
  {
    var x :| x in s;
    c := WalkFindsCycle(edges, s, [x]);
  }

  /** Peels sinks off an acyclic graph; the order of removal is a rank. */
  lemma {:induction false} AcyclicRankOn<T(!new)>(edges: Edges<T>, s: set<T>) returns (rank: map<T, nat>)
    requires Acyclic(edges)
    ensures rank.Keys == s
    ensures forall x :: x in s ==> rank[x] < |s|
    ensures forall x, y :: x in s && y in s && HasEdge(edges, x, y) ==> rank[y] < rank[x]
    decreases |s|
  {
    if s == {} {
      return map[];
    }
    // Walk backwards: some node has no predecessor left, because the reversed graph has no trap either.
    var rev := map x | x in s :: set y | y in s && HasEdge(edges, y, x);
    if Trap(rev, s) {
      var c := TrapHasCycle(rev, s);
      ReversedCycle(edges, rev, c);
      assert false;
    }
    var top :| top in s && !HasSuccessorIn(rev, s, top);
    var rest := s - {top};
    var inner := AcyclicRankOn(edges, rest);
    rank := inner[top := |rest|];
    forall x, y | x in s && y in s && HasEdge(edges, x, y)
      ensures rank[y] < rank[x]
    {
      assert y == top ==> HasEdge(rev, top, x);
    }
  }

  lemma {:induction false} ReversedCycle<T(!new)>(edges: Edges<T>, rev: Edges<T>, c: seq<T>)
    requires forall x, y :: HasEdge(rev, x, y) ==> HasEdge(edges, y, x)
    requires IsCycle(rev, c)
    ensures !Acyclic(edges)
  {
    var n := |c|;
    var d := seq(n, i requires 0 <= i < n => c[n - 1 - i]);
    forall i | 0 <= i < n - 1
      ensures HasEdge(edges, d[i], d[i + 1])
    {
      assert HasEdge(rev, c[n - 2 - i], c[n - 2 - i + 1]);
    }
    assert HasEdge(rev, c[n - 1], c[0]);
    assert IsCycle(edges, d);
  }

  lemma AcyclicIsRanked<T(!new)>(edges: Edges<T>) returns (rank: map<T, nat>)
    requires Acyclic(edges)
    ensures Ranked(edges, rank)
  {
    rank := AcyclicRankOn(edges, edges.Keys);
    forall x, y | x in edges && y in edges[x] && y in edges
      ensures rank[y] < rank[x]
    {
      assert HasEdge(edges, x, y);
    }
  }

  /** `s` contains every successor of its members. */
  ghost predicate Closed<T>(edges: Edges<T>, s: set<T>) {
    forall x :: x in s && x in edges ==> edges[x] <= s
  }

  /** `s` is the smallest closed set that contains `roots`. */
  ghost predicate LeastClosed<T(!new)>(edges: Edges<T>, roots: set<T>, s: set<T>) {
    && roots <= s
    && Closed(edges, s)
    && forall c: set<T> :: roots <= c && Closed(edges, c) ==> s <= c
  }

  ghost predicate ReachedBy<T>(edges: Edges<T>, roots: set<T>, x: T, p: seq<T>) {
    IsPath(edges, p) && p[0] in roots && p[|p| - 1] == x
  }

  ghost predicate Reachable<T(!new)>(edges: Edges<T>, roots: set<T>, x: T) {
    exists p: seq<T> :: ReachedBy(edges, roots, x, p)
  }

  lemma {:induction false} PathStaysInClosed<T>(edges: Edges<T>, s: set<T>, p: seq<T>, i: nat)
    requires Closed(edges, s) && IsPath(edges, p) && p[0] in s
    requires i < |p|
    ensures p[i] in s
  {
    if i > 0 {
      PathStaysInClosed(edges, s, p, i - 1);
      assert HasEdge(edges, p[i - 1], p[i - 1 + 1]);
    }
  }

  /** The least closed set above the roots is the set of nodes some path leads to. */
  lemma LeastClosedIsReachable<T(!new)>(edges: Edges<T>, roots: set<T>, s: set<T>)
    requires LeastClosed(edges, roots, s)
    ensures forall x :: x in s <==> Reachable(edges, roots, x)
  {
    forall x | Reachable(edges, roots, x)
      ensures x in s
    {
      var p :| ReachedBy(edges, roots, x, p);
      PathStaysInClosed(edges, s, p, |p| - 1);
    }
    var c := set x | x in s && Reachable(edges, roots, x);
    forall x | x in roots
      ensures x in c
    {
      assert ReachedBy(edges, roots, x, [x]);
    }
    forall x, y | x in c && x in edges && y in edges[x]
      ensures y in c
    {
      var p :| ReachedBy(edges, roots, x, p);
      assert HasEdge(edges, x, y);
      assert ReachedBy(edges, roots, y, p + [y]);
    }
    assert Closed(edges, c);
  }

  lemma ClosedWithout<T>(edges: Edges<T>, s: set<T>, x: T)
    requires Closed(edges, s) && forall y :: y in s ==> !HasEdge(edges, y, x)
    ensures Closed(edges, s - {x})
  {
    forall y | y in s - {x} && y in edges
      ensures edges[y] <= s - {x}
    {
      assert !HasEdge(edges, y, x);
    }
  }

  /** Everything in the least closed set is a root or a successor of something in it. */
  lemma LeastClosedIsJustified<T(!new)>(edges: Edges<T>, roots: set<T>, s: set<T>, x: T)
    requires LeastClosed(edges, roots, s) && x in s
    ensures x in roots || exists y :: y in s && HasEdge(edges, y, x)
  {
    if x !in roots && !exists y :: y in s && HasEdge(edges, y, x) {
      ClosedWithout(edges, s, x);
      assert false;
    }
  }

  /** A node is reached from `x` if it is `x` or is reached from a successor of `x`. */
  lemma ReachableUnfolds<T(!new)>(edges: Edges<T>, x: T, y: T)
    ensures Reachable(edges, {x}, y) <==> y == x || exists z :: HasEdge(edges, x, z) && Reachable(edges, {z}, y)
  {
    if Reachable(edges, {x}, y) && y != x {
      var p :| ReachedBy(edges, {x}, y, p);
      assert HasEdge(edges, p[0], p[0 + 1]);
      forall i | 0 <= i < |p| - 2
        ensures HasEdge(edges, p[1..][i], p[1..][i + 1])
      {
        assert HasEdge(edges, p[i + 1], p[i + 1 + 1]);
      }
      assert ReachedBy(edges, {p[1]}, y, p[1..]);
    }
    if y == x {
      assert ReachedBy(edges, {x}, y, [x]);
    } else if z :| HasEdge(edges, x, z) && Reachable(edges, {z}, y) {
      var p :| ReachedBy(edges, {z}, y, p);
      var q := [x] + p;
      forall i | 0 <= i < |q| - 1
        ensures HasEdge(edges, q[i], q[i + 1])
      {
        if i > 0 {
          assert HasEdge(edges, p[i - 1], p[i - 1 + 1]);
        }
      }
      assert ReachedBy(edges, {x}, y, q);
    }
  }

  lemma ReachableStep<T(!new)>(edges: Edges<T>, roots: set<T>, x: T, y: T)
    requires Reachable(edges, roots, x) && HasEdge(edges, x, y)
    ensures Reachable(edges, roots, y)
  {
    var p :| ReachedBy(edges, roots, x, p);
    assert ReachedBy(edges, roots, y, p + [y]);
  }

  lemma {:induction false} ReachableAlong<T(!new)>(edges: Edges<T>, roots: set<T>, p: seq<T>, i: nat)
    requires IsPath(edges, p) && Reachable(edges, roots, p[0]) && i < |p|
    ensures Reachable(edges, roots, p[i])
  {
    if i > 0 {
      ReachableAlong(edges, roots, p, i - 1);
      assert HasEdge(edges, p[i - 1], p[i - 1 + 1]);
      ReachableStep(edges, roots, p[i - 1], p[i]);
    }
  }

  lemma ReachableFrom<T(!new)>(edges: Edges<T>, roots: set<T>, x: T, y: T)
    requires Reachable(edges, roots, x) && Reachable(edges, {x}, y)
    ensures Reachable(edges, roots, y)
  {
    var p :| ReachedBy(edges, {x}, y, p);
    ReachableAlong(edges, roots, p, |p| - 1);
  }

  // ---------------------------------------------------------------- adding an edge

  ghost function WithEdge<T>(edges: Edges<T>, a: T, b: T): Edges<T> {
    edges[a := (if a in edges then edges[a] else {}) + {b}]
  }

  /** Reached in the graph as it was, or by way of the new edge. */
  ghost predicate ReachedThrough<T(!new)>(edges: Edges<T>, a: T, b: T, x: T, y: T) {
    Reachable(edges, {x}, y) || (Reachable(edges, {x}, a) && Reachable(edges, {b}, y))
  }

  /** A new edge leads on from whatever led to its start to whatever its end leads to, and adds nothing else. */
  lemma EdgeAddsReach<T(!new)>(edges: Edges<T>, a: T, b: T, x: T, y: T)
    ensures Reachable(WithEdge(edges, a, b), {x}, y) <==> ReachedThrough(edges, a, b, x, y)
  {
    var more := WithEdge(edges, a, b);
    if p :| ReachedBy(more, {x}, y, p) {
      assert ReachedBy(edges, {x}, x, [x]);
      ReachedThroughAlong(edges, a, b, p, |p| - 1);
    }
    if Reachable(edges, {x}, y) {
      ReachStays(edges, a, b, x, y);
    }
    if Reachable(edges, {x}, a) && Reachable(edges, {b}, y) {
      ReachStays(edges, a, b, x, a);
      ReachStays(edges, a, b, b, y);
      assert HasEdge(more, a, b);
      ReachableStep(more, {x}, a, b);
      ReachableFrom(more, {x}, b, y);
    }
  }

  lemma {:induction false} ReachedThroughAlong<T(!new)>(edges: Edges<T>, a: T, b: T, p: seq<T>, i: nat)
    requires IsPath(WithEdge(edges, a, b), p) && i < |p|
    ensures ReachedThrough(edges, a, b, p[0], p[i])
  {
    if i == 0 {
      assert ReachedBy(edges, {p[0]}, p[0], [p[0]]);
    } else {
      ReachedThroughAlong(edges, a, b, p, i - 1);
      var u, v := p[i - 1], p[i];
      assert HasEdge(WithEdge(edges, a, b), p[i - 1], p[i - 1 + 1]);
      if HasEdge(edges, u, v) {
        if Reachable(edges, {p[0]}, u) {
          ReachableStep(edges, {p[0]}, u, v);
        } else {
          ReachableStep(edges, {b}, u, v);
        }
      } else {
        assert u == a && v == b;
        assert ReachedBy(edges, {b}, b, [b]);
      }
    }
  }

  lemma ReachStays<T(!new)>(edges: Edges<T>, a: T, b: T, x: T, y: T)
    requires Reachable(edges, {x}, y)
    ensures Reachable(WithEdge(edges, a, b), {x}, y)
  {
    var p :| ReachedBy(edges, {x}, y, p);
    forall i | 0 <= i < |p| - 1
      ensures HasEdge(WithEdge(edges, a, b), p[i], p[i + 1])
    {
      assert HasEdge(edges, p[i], p[i + 1]);
    }
    assert ReachedBy(WithEdge(edges, a, b), {x}, y, p);
  }

  // ---------------------------------------------------------------- searching

  /** What a search from `x` that has finished guarantees: it went from the visited set `before` to
      `after`, everything it added is fully expanded, and it added nothing it did not have to. */
  ghost predicate Searched<T(!new)>(edges: Edges<T>, before: set<T>, after: set<T>, xs: set<T>) {
    && before <= after
    && xs <= after
    && (forall v :: v in after && v !in before && v in edges ==> edges[v] <= after)
    && (forall c: set<T> :: xs <= c && Closed(edges, c) ==> after - before <= c)
  }

  /** Nothing to search. */
  lemma SearchedNothing<T(!new)>(edges: Edges<T>, visited: set<T>)
    ensures Searched(edges, visited, visited, {})
  {
  }

  /** One search after another. */
  lemma SearchedThen<T(!new)>(edges: Edges<T>, a: set<T>, b: set<T>, c: set<T>, xs: set<T>, ys: set<T>)
    requires Searched(edges, a, b, xs) && Searched(edges, b, c, ys)
    ensures Searched(edges, a, c, xs + ys)
  {
    forall s: set<T> | xs + ys <= s && Closed(edges, s)
      ensures c - a <= s
    {
      assert c - a <= (c - b) + (b - a);
    }
  }

  /** Searching all successors of a node that was just marked is a search from the node. */
  lemma SearchedNode<T(!new)>(edges: Edges<T>, before: set<T>, after: set<T>, x: T)
    requires x !in before
    requires Searched(edges, before + {x}, after, if x in edges then edges[x] else {})
    ensures Searched(edges, before, after, {x})
  {
    forall s: set<T> | {x} <= s && Closed(edges, s)
      ensures after - before <= s
    {
      assert x in edges ==> edges[x] <= s;
      assert after - before <= (after - (before + {x})) + {x};
    }
  }

  /** A node that is visited already needs no search. */
  lemma SearchedAlready<T(!new)>(edges: Edges<T>, visited: set<T>, x: T)
    requires x in visited
    ensures Searched(edges, visited, visited, {x})
  {
  }

  lemma SearchedAllAlready<T(!new)>(edges: Edges<T>, visited: set<T>, xs: set<T>)
    requires xs <= visited
    ensures Searched(edges, visited, visited, xs)
  {
  }

  /** Searching from the roots with nothing visited yields the least closed set above them. */
  lemma SearchedIsLeast<T(!new)>(edges: Edges<T>, after: set<T>, roots: set<T>)
    requires Searched(edges, {}, after, roots)
    ensures LeastClosed(edges, roots, after)
  {
    forall c: set<T> | roots <= c && Closed(edges, c)
      ensures after <= c
    {
      assert after - {} == after;
    }
  }
}
