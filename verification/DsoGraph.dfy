/** Dependency graphs of shared objects: direct edges, walks and reachability. */
module DsoGraph {
  import opened Collections

  /** Node x depends directly on the nodes adj[x], in order and possibly with repetitions. */
  type Graph = seq<seq<nat>>

  ghost predicate WellFormed(adj: Graph) {
    forall x, j :: 0 <= x < |adj| && 0 <= j < |adj[x]| ==> adj[x][j] < |adj|
  }

  ghost predicate Edge(adj: Graph, a: nat, b: nat) {
    a < |adj| && b in adj[a]
  }

  /** A walk of exactly k edges. */
  ghost predicate Walk(adj: Graph, a: nat, b: nat, k: nat)
    decreases k
  {
    if k == 0 then a == b else exists c: nat :: Walk(adj, a, c, k - 1) && Edge(adj, c, b)
  }

  /** b is reached from a by some number of edges, possibly none. */
  ghost predicate Reach(adj: Graph, a: nat, b: nat) {
    exists k: nat :: Walk(adj, a, b, k)
  }

  /** b is reached from a by one edge or more. */
  ghost predicate ReachPlus(adj: Graph, a: nat, b: nat) {
    exists k: nat :: k > 0 && Walk(adj, a, b, k)
  }

  lemma ReachRefl(adj: Graph, a: nat)
    ensures Reach(adj, a, a)
  {
    assert Walk(adj, a, a, 0);
  }

  lemma ReachStep(adj: Graph, a: nat, b: nat, c: nat)
    requires Reach(adj, a, b) && Edge(adj, b, c)
    ensures Reach(adj, a, c)
  {
    var k: nat :| Walk(adj, a, b, k);
    assert Walk(adj, a, c, k + 1);
  }

  /** A set that holds a and is closed under edges holds everything reachable from a. */
  lemma {:induction false} ClosedHolds(adj: Graph, a: nat, b: nat, k: nat, s: set<nat>)
    requires a in s && Walk(adj, a, b, k)
    requires forall x, y :: x in s && Edge(adj, x, y) ==> y in s
    ensures b in s
    decreases k
  {
    if k > 0 {
      var c: nat :| Walk(adj, a, c, k - 1) && Edge(adj, c, b);
      ClosedHolds(adj, a, c, k - 1, s);
    }
  }

  /** A sequence without repetitions is no longer than a set that holds it. */
  lemma {:induction false} DistinctLength(s: seq<nat>, u: set<nat>)
    requires Distinct(s) && forall x :: x in s ==> x in u
    ensures |s| <= |u|
  {
    if |s| > 0 {
      var t := s[..|s| - 1];
      forall x | x in t ensures x in u - {s[|s| - 1]} {
        var i :| 0 <= i < |t| && t[i] == x;
      }
      DistinctLength(t, u - {s[|s| - 1]});
    }
  }

  /** How many marks are clear. */
  function Unmarked(mark: seq<bool>): nat {
    if |mark| == 0 then 0 else Unmarked(mark[..|mark| - 1]) + if mark[|mark| - 1] then 0 else 1
  }

  lemma {:induction false} MarkOne(mark: seq<bool>, i: nat)
    requires i < |mark| && !mark[i]
    ensures Unmarked(mark[i := true]) + 1 == Unmarked(mark)
  {
    var n := |mark| - 1;
    if i == n {
      assert mark[i := true][..n] == mark[..n];
    } else {
      assert mark[i := true][..n] == mark[..n][i := true];
      MarkOne(mark[..n], i);
    }
  }
}
