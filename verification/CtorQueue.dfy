/** The constructor order: queue_ctors of musl/ldso/dynlink.c. */
module CtorQueue {
  import opened Collections
  import opened DsoGraph

  /** The depth-first search: a path being explored and a queue of finished nodes. */
  datatype Dfs = Dfs(path: seq<nat>, queue: seq<nat>, nextDep: seq<nat>, mark: seq<bool>)

  ghost predicate Seen(d: Dfs, x: nat) {
    x in d.path || x in d.queue
  }

  /** Shapes: all nodes are nodes of the graph, no node is held twice, and the marks below u say which
      nodes are held. */
  ghost predicate Shape(adj: Graph, u: set<nat>, d: Dfs) {
    && |d.nextDep| == |d.mark| == |adj|
    && Distinct(d.path + d.queue)
    && (forall k :: 0 <= k < |d.path| ==> d.path[k] < |adj|)
    && (forall x :: Seen(d, x) ==> x in u)
    && (forall x :: x in u ==> x < |adj| && (d.mark[x] <==> Seen(d, x)))
  }

  /** Node k of the path is joined to the next by the edge under exploration. */
  ghost predicate Link(adj: Graph, d: Dfs, k: nat) {
    && k + 1 < |d.path| && d.path[k] < |d.nextDep| && d.path[k] < |adj|
    && d.nextDep[d.path[k]] < |adj[d.path[k]]|
    && adj[d.path[k]][d.nextDep[d.path[k]]] == d.path[k + 1]
  }

  ghost predicate Chain(adj: Graph, d: Dfs) {
    forall k: nat :: k + 1 < |d.path| ==> Link(adj, d, k)
  }

  /** The edges of x already looked at lead to nodes seen. */
  ghost predicate LookedAt(adj: Graph, d: Dfs, x: nat) {
    x < |adj| && x < |d.nextDep| && forall j :: 0 <= j < d.nextDep[x] && j < |adj[x]| ==> Seen(d, adj[x][j])
  }

  ghost predicate Explored(adj: Graph, d: Dfs) {
    && (forall x :: x in d.path ==> LookedAt(adj, d, x))
    && (forall x, y :: x in d.queue && Edge(adj, x, y) ==> Seen(d, y))
  }

  /** A dependency comes first in the queue unless it reaches back. */
  ghost predicate Ordered(adj: Graph, queue: seq<nat>) {
    forall k, y :: 0 <= k < |queue| && Edge(adj, queue[k], y) ==> y in queue[..k] || Reach(adj, y, queue[k])
  }

  ghost predicate Rooted(adj: Graph, root: nat, d: Dfs) {
    && (if |d.path| > 0 then d.path[0] == root else root in d.queue)
    && (forall x :: Seen(d, x) ==> Reach(adj, root, x))
  }

  ghost predicate Inv(adj: Graph, root: nat, u: set<nat>, d: Dfs) {
    && WellFormed(adj) && Shape(adj, u, d) && Chain(adj, d) && Explored(adj, d)
    && Ordered(adj, d.queue) && Rooted(adj, root, d)
  }

  /** Everything an edge leads to from u is in u. */
  ghost predicate Closed(adj: Graph, u: set<nat>) {
    forall x, y :: x in u && Edge(adj, x, y) ==> y in u
  }

  function Top(d: Dfs): nat
    requires |d.path| > 0
  {
    d.path[|d.path| - 1]
  }

  /** The edge under exploration leads to a node already seen. */
  function Skip(d: Dfs): Dfs
    requires |d.path| > 0 && Top(d) < |d.nextDep|
  {
    d.(nextDep := d.nextDep[Top(d) := d.nextDep[Top(d)] + 1])
  }

  /** The edge leads to a new node c, which becomes the top of the path. */
  function Push(d: Dfs, c: nat): Dfs
    requires c < |d.nextDep| && c < |d.mark|
  {
    Dfs(d.path + [c], d.queue, d.nextDep[c := 0], d.mark[c := true])
  }

  /** The top of the path has no edge left. */
  function Finish(d: Dfs): Dfs
    requires |d.path| > 0
  {
    d.(path := d.path[..|d.path| - 1], queue := d.queue + [Top(d)])
  }

  /** An edge of the top is left. */
  ghost predicate HasEdge(adj: Graph, d: Dfs) {
    |d.path| > 0 && Top(d) < |adj| && Top(d) < |d.nextDep| && d.nextDep[Top(d)] < |adj[Top(d)]|
  }

  ghost function Target(adj: Graph, d: Dfs): nat
    requires HasEdge(adj, d)
  {
    adj[Top(d)][d.nextDep[Top(d)]]
  }

  /** The top of the path occurs nowhere else. */
  lemma TopOnce(adj: Graph, u: set<nat>, d: Dfs)
    requires Shape(adj, u, d) && |d.path| > 0
    ensures forall k :: 0 <= k < |d.path| - 1 ==> d.path[k] != Top(d)
    ensures Top(d) !in d.queue
  {
    var n := |d.path| - 1;
    forall k | 0 <= k < n ensures d.path[k] != Top(d) {
      assert (d.path + d.queue)[k] != (d.path + d.queue)[n];
    }
    forall i | 0 <= i < |d.queue| ensures d.queue[i] != Top(d) {
      assert (d.path + d.queue)[n] != (d.path + d.queue)[|d.path| + i];
    }
  }

  lemma SkipKeeps(adj: Graph, root: nat, u: set<nat>, d: Dfs)
    requires Inv(adj, root, u, d) && HasEdge(adj, d) && Seen(d, Target(adj, d))
    ensures Inv(adj, root, u, Skip(d))
  {
    var e := Skip(d);
    TopOnce(adj, u, d);
    assert forall x :: Seen(e, x) <==> Seen(d, x);
    forall k: nat | k + 1 < |e.path| ensures Link(adj, e, k) {
      assert Link(adj, d, k);
    }
    forall x | x in e.path ensures LookedAt(adj, e, x) {
      assert LookedAt(adj, d, x);
    }
  }

  lemma PushKeeps(adj: Graph, root: nat, u: set<nat>, d: Dfs)
    requires Inv(adj, root, u, d) && Closed(adj, u) && HasEdge(adj, d) && !Seen(d, Target(adj, d))
    ensures Target(adj, d) in u && Inv(adj, root, u, Push(d, Target(adj, d)))
  {
    var c := Target(adj, d);
    assert Edge(adj, Top(d), c) && Seen(d, Top(d));
    var e := Push(d, c);
    assert forall x :: Seen(e, x) <==> Seen(d, x) || x == c;
    PushDistinct(d, c);
    ReachStep(adj, root, Top(d), c);
    forall k: nat | k + 1 < |e.path| ensures Link(adj, e, k) {
      assert Seen(d, d.path[k]);
      if k + 1 < |d.path| { assert Link(adj, d, k); }
    }
    forall x | x in e.path ensures LookedAt(adj, e, x) {
      if x != c { assert LookedAt(adj, d, x); }
    }
  }

  lemma PushDistinct(d: Dfs, c: nat)
    requires Distinct(d.path + d.queue) && !Seen(d, c)
    ensures Distinct((d.path + [c]) + d.queue)
  {
    var s, t, n := d.path + d.queue, (d.path + [c]) + d.queue, |d.path|;
    forall i, j | 0 <= i < j < |t| ensures t[i] != t[j] {
      var i', j' := if i < n then i else i - 1, if j < n then j else j - 1;
      if i != n { assert t[i] == s[i']; }
      if j != n { assert t[j] == s[j']; }
      if i == n { assert s[j'] in d.queue; }
      if j == n { assert s[i'] in d.path; }
      if i != n && j != n { assert s[i'] != s[j']; }
    }
  }

  /** Each node of the path reaches the top. */
  lemma {:induction false} ChainReaches(adj: Graph, d: Dfs, k: nat, m: nat)
    requires Chain(adj, d) && k <= m < |d.path|
    ensures Reach(adj, d.path[k], d.path[m])
    decreases m
  {
    if k == m {
      ReachRefl(adj, d.path[k]);
    } else {
      ChainReaches(adj, d, k, m - 1);
      assert Link(adj, d, m - 1);
      ReachStep(adj, d.path[k], d.path[m - 1], d.path[m]);
    }
  }

  lemma FinishKeeps(adj: Graph, root: nat, u: set<nat>, d: Dfs)
    requires Inv(adj, root, u, d) && |d.path| > 0 && !HasEdge(adj, d)
    ensures Inv(adj, root, u, Finish(d))
  {
    var e, t := Finish(d), Top(d);
    assert forall x :: Seen(e, x) <==> Seen(d, x) by { FinishSeen(d); }
    FinishDistinct(d);
    assert LookedAt(adj, d, t);
    forall k: nat | k + 1 < |e.path| ensures Link(adj, e, k) {
      assert Link(adj, d, k);
    }
    forall x | x in e.path ensures LookedAt(adj, e, x) {
      assert x in d.path && LookedAt(adj, d, x);
    }
    FinishOrdered(adj, d);
  }

  lemma FinishSeen(d: Dfs)
    requires |d.path| > 0
    ensures forall x :: Seen(Finish(d), x) <==> Seen(d, x)
  {
    assert d.path == d.path[..|d.path| - 1] + [Top(d)];
  }

  lemma FinishDistinct(d: Dfs)
    requires |d.path| > 0 && Distinct(d.path + d.queue)
    ensures Distinct(Finish(d).path + Finish(d).queue)
  {
    var n := |d.path| - 1;
    var s, t := d.path + d.queue, Finish(d).path + Finish(d).queue;
    forall i, j | 0 <= i < j < |t| ensures t[i] != t[j] {
      var i' := if i < n then i else if i == |t| - 1 then n else i + 1;
      var j' := if j < n then j else if j == |t| - 1 then n else j + 1;
      assert t[i] == s[i'] && t[j] == s[j'];
      assert i' < j' ==> s[i'] != s[j'];
      assert j' < i' ==> s[j'] != s[i'];
    }
  }

  lemma FinishOrdered(adj: Graph, d: Dfs)
    requires Chain(adj, d) && Explored(adj, d) && Ordered(adj, d.queue) && |d.path| > 0 && !HasEdge(adj, d)
    ensures Ordered(adj, d.queue + [Top(d)])
  {
    var q, t := d.queue + [Top(d)], Top(d);
    forall k, y | 0 <= k < |q| && Edge(adj, q[k], y) ensures y in q[..k] || Reach(adj, y, q[k]) {
      if k < |d.queue| {
        assert q[..k] == d.queue[..k];
      } else {
        assert LookedAt(adj, d, t);
        var j :| 0 <= j < |adj[t]| && adj[t][j] == y;
        assert Seen(d, y);
        assert q[..k] == d.queue;
        if y in d.path {
          var i :| 0 <= i < |d.path| && d.path[i] == y;
          ChainReaches(adj, d, i, |d.path| - 1);
        }
      }
    }
  }

  /** The search starts at the root with every mark below u clear. */
  lemma StartInv(adj: Graph, root: nat, u: set<nat>, nextDep: seq<nat>, mark: seq<bool>)
    requires WellFormed(adj) && root in u && |nextDep| == |mark| == |adj|
    requires forall x :: x in u ==> x < |adj| && (x == root || !mark[x])
    ensures Inv(adj, root, u, Dfs([root], [], nextDep[root := 0], mark[root := true]))
  {
    ReachRefl(adj, root);
    var d := Dfs([root], [], nextDep[root := 0], mark[root := true]);
    assert forall x :: Seen(d, x) <==> x == root;
  }

  /** When the path is empty the queue is everything reachable, each node once, in order. */
  lemma EndInv(adj: Graph, root: nat, u: set<nat>, d: Dfs)
    requires Inv(adj, root, u, d) && |d.path| == 0
    ensures Distinct(d.queue) && Ordered(adj, d.queue)
    ensures forall x :: x in d.queue <==> Reach(adj, root, x)
  {
    assert d.path + d.queue == d.queue;
    var s := set x | x in d.queue;
    forall x | Reach(adj, root, x) ensures x in d.queue {
      var k: nat :| Walk(adj, root, x, k);
      ClosedHolds(adj, root, x, k, s);
    }
    forall x | x in d.queue ensures Reach(adj, root, x) {
      assert Seen(d, x);
    }
  }

  /** Path and queue together never outgrow u. */
  lemma HeldBound(adj: Graph, u: set<nat>, d: Dfs)
    requires Shape(adj, u, d)
    ensures |d.path| + |d.queue| <= |u|
  {
    var s := d.path + d.queue;
    forall x | x in s ensures x in u { assert Seen(d, x); }
    DistinctLength(s, u);
  }
}
