/** The breadth-first closure of a dependency list: extend_bfs_deps of musl/ldso/dynlink.c. */
module BfsDeps {
  import opened DsoGraph

  /** y is m edges away from p, m > 0, and no fewer. */
  ghost predicate IsDistance(adj: Graph, p: nat, y: nat, m: nat) {
    m > 0 && Walk(adj, p, y, m) && forall l: nat :: 0 < l && Walk(adj, p, y, l) ==> m <= l
  }

  /** list begins with the nd direct dependencies of p; what follows repeats nothing; together they are
      what p leads to; and the distances from p, which are lev, never go down along the list. */
  ghost predicate BfsLevels(adj: Graph, p: nat, nd: nat, list: seq<nat>, lev: seq<nat>) {
    && p < |adj| && |lev| == |list| && nd <= |list| && list[..nd] == adj[p]
    && (forall k :: 0 <= k < |list| ==> IsDistance(adj, p, list[k], lev[k]))
    && Rising(lev) && FreshTail(list, nd)
    && (forall y: nat :: y in list <==> ReachPlus(adj, p, y))
  }

  ghost predicate IsBfsClosure(adj: Graph, p: nat, nd: nat, list: seq<nat>) {
    exists lev: seq<nat> :: BfsLevels(adj, p, nd, list, lev)
  }

  ghost predicate Rising(lev: seq<nat>) {
    forall k, l :: 0 <= k < l < |lev| ==> lev[k] <= lev[l]
  }

  /** Nothing at nd or beyond occurs earlier. */
  ghost predicate FreshTail(list: seq<nat>, nd: nat) {
    forall k, l :: 0 <= k < l < |list| && nd <= l ==> list[k] != list[l]
  }

  /** y stands in the list at level m or less. */
  ghost predicate Within(list: seq<nat>, lev: seq<nat>, y: nat, m: nat) {
    exists l :: 0 <= l < |list| && l < |lev| && list[l] == y && lev[l] <= m
  }

  /** The first j edges of x lead to nodes at most one level further than m. */
  ghost predicate EdgesWithin(adj: Graph, list: seq<nat>, lev: seq<nat>, x: nat, j: nat, m: nat) {
    x < |adj| && j <= |adj[x]| && forall e :: 0 <= e < j ==> Within(list, lev, adj[x][e], m + 1)
  }

  /** All edges of entry k are covered. */
  ghost predicate DoneAt(adj: Graph, list: seq<nat>, lev: seq<nat>, k: nat) {
    k < |list| && k < |lev| && list[k] < |adj| && EdgesWithin(adj, list, lev, list[k], |adj[list[k]]|, lev[k])
  }

  /** Entry k is some walk of lev[k] edges away. */
  ghost predicate LevelAt(adj: Graph, p: nat, list: seq<nat>, lev: seq<nat>, k: nat) {
    k < |list| && k < |lev| && lev[k] > 0 && Walk(adj, p, list[k], lev[k])
  }

  ghost predicate Marks(mark: seq<bool>, list: seq<nat>) {
    && (forall x :: x in list ==> x < |mark|)
    && (forall x: nat :: x < |mark| ==> (mark[x] <==> x in list))
  }

  /** While the first j edges of entry i are being copied. */
  ghost predicate Copying(adj: Graph, p: nat, nd: nat, list: seq<nat>, lev: seq<nat>, mark: seq<bool>, i: nat, j: nat) {
    && WellFormed(adj) && p < |adj| == |mark| && nd <= |list| && list[..nd] == adj[p] && |lev| == |list|
    && Marks(mark, list) && Rising(lev) && FreshTail(list, nd)
    && (forall k: nat :: k < |list| ==> LevelAt(adj, p, list, lev, k))
    && (forall k :: 0 <= k < nd ==> lev[k] == 1)
    && i <= |list| && (forall k: nat :: k < i ==> DoneAt(adj, list, lev, k))
    && (i < |list| ==> lev[|list| - 1] <= lev[i] + 1 && EdgesWithin(adj, list, lev, list[i], j, lev[i]))
    && (i == |list| ==> j == 0)
  }

  /** Copying behind a bound variable, so that only proofs that name it see inside. */
  ghost predicate Walking(adj: Graph, p: nat, nd: nat, list: seq<nat>, lev: seq<nat>, mark: seq<bool>, i: nat, j: nat) {
    forall q: nat :: q == p ==> Copying(adj, q, nd, list, lev, mark, i, j)
  }

  lemma StartWalking(adj: Graph, p: nat, mark: seq<bool>)
    requires WellFormed(adj) && p < |adj| == |mark| && Marks(mark, adj[p])
    ensures Walking(adj, p, |adj[p]|, adj[p], seq(|adj[p]|, _ => 1), mark, 0, 0)
  {
    var list, lev := adj[p], seq(|adj[p]|, _ => 1);
    forall k: nat | k < |list| ensures LevelAt(adj, p, list, lev, k) {
      assert Walk(adj, p, p, 0) && Edge(adj, p, list[k]);
    }
  }

  /** A marked target is already within reach: it stands in the list, whose levels go no further. */
  lemma SkipWalking(adj: Graph, p: nat, nd: nat, list: seq<nat>, lev: seq<nat>, mark: seq<bool>, i: nat, j: nat)
    requires Walking(adj, p, nd, list, lev, mark, i, j) && i < |list| && list[i] < |adj| && j < |adj[list[i]]|
    requires adj[list[i]][j] < |mark| && mark[adj[list[i]][j]]
    ensures Walking(adj, p, nd, list, lev, mark, i, j + 1)
  {
    assert Copying(adj, p, nd, list, lev, mark, i, j);
    var y := adj[list[i]][j];
    var l :| 0 <= l < |list| && list[l] == y;
    assert lev[l] <= lev[|list| - 1];
    assert Within(list, lev, y, lev[i] + 1);
  }

  /** Longer lists keep what was within reach. */
  lemma GrowEdges(adj: Graph, list: seq<nat>, lev: seq<nat>, y: nat, m: nat, x: nat, j: nat, h: nat)
    requires |lev| == |list| && EdgesWithin(adj, list, lev, x, j, h)
    ensures EdgesWithin(adj, list + [y], lev + [m], x, j, h)
  {
    forall e | 0 <= e < j ensures Within(list + [y], lev + [m], adj[x][e], h + 1) {
      var l :| 0 <= l < |list| && l < |lev| && list[l] == adj[x][e] && lev[l] <= h + 1;
      assert (list + [y])[l] == list[l] && (lev + [m])[l] == lev[l];
    }
  }

  lemma AppendWalking(adj: Graph, p: nat, nd: nat, list: seq<nat>, lev: seq<nat>, mark: seq<bool>, i: nat, j: nat)
    requires Walking(adj, p, nd, list, lev, mark, i, j) && i < |list| == |lev| && list[i] < |adj| && j < |adj[list[i]]|
    requires adj[list[i]][j] < |mark| && !mark[adj[list[i]][j]]
    ensures var y := adj[list[i]][j];
      Walking(adj, p, nd, list + [y], lev + [lev[i] + 1], mark[y := true], i, j + 1)
  {
    assert Copying(adj, p, nd, list, lev, mark, i, j);
    var y, m := adj[list[i]][j], lev[i] + 1;
    var list', lev' := list + [y], lev + [m];
    assert list'[..nd] == list[..nd];
    AppendShape(adj, list, lev, mark, nd, y, m);
    AppendLevels(adj, p, list, lev, i, y, list', lev');
    forall k: nat | k < i ensures DoneAt(adj, list', lev', k) {
      assert DoneAt(adj, list, lev, k);
      GrowEdges(adj, list, lev, y, m, list[k], |adj[list[k]]|, lev[k]);
    }
    GrowEdges(adj, list, lev, y, m, list[i], j, lev[i]);
    AppendEdge(adj, list', lev', list[i], j, lev[i]);
  }

  lemma AppendLevels(adj: Graph, p: nat, list: seq<nat>, lev: seq<nat>, i: nat, y: nat, list': seq<nat>, lev': seq<nat>)
    requires |lev| == |list| && i < |list| && Edge(adj, list[i], y)
    requires list' == list + [y] && lev' == lev + [lev[i] + 1]
    requires forall k: nat :: k < |list| ==> LevelAt(adj, p, list, lev, k)
    ensures forall k: nat :: k < |list'| ==> LevelAt(adj, p, list', lev', k)
  {
    forall k: nat | k < |list'| ensures LevelAt(adj, p, list', lev', k) {
      if k < |list| {
        assert LevelAt(adj, p, list, lev, k);
      } else {
        assert LevelAt(adj, p, list, lev, i);
        assert Walk(adj, p, list[i], lev'[k] - 1) && Edge(adj, list[i], y);
      }
    }
  }

  lemma AppendEdge(adj: Graph, list: seq<nat>, lev: seq<nat>, x: nat, j: nat, h: nat)
    requires |lev| == |list| > 0 && x < |adj| && j < |adj[x]| && EdgesWithin(adj, list, lev, x, j, h)
    requires list[|list| - 1] == adj[x][j] && lev[|list| - 1] == h + 1
    ensures EdgesWithin(adj, list, lev, x, j + 1, h)
  {
    assert Within(list, lev, adj[x][j], h + 1);
  }

  lemma AppendShape(adj: Graph, list: seq<nat>, lev: seq<nat>, mark: seq<bool>, nd: nat, y: nat, m: nat)
    requires |lev| == |list| > 0 && Marks(mark, list) && Rising(lev) && FreshTail(list, nd)
    requires y < |mark| && !mark[y] && lev[|list| - 1] <= m
    ensures Marks(mark[y := true], list + [y]) && Rising(lev + [m]) && FreshTail(list + [y], nd)
  {
    var list', lev' := list + [y], lev + [m];
    forall k, l | 0 <= k < l < |lev'| ensures lev'[k] <= lev'[l] {
      if l == |lev| { assert k == |lev| - 1 || lev[k] <= lev[|lev| - 1]; }
    }
    assert forall x: nat :: x in list' <==> x in list || x == y;
    forall k, l | 0 <= k < l < |list'| && nd <= l ensures list'[k] != list'[l] {
      if l == |list| { assert list[k] in list; }
    }
  }

  /** The next entry. */
  lemma NextWalking(adj: Graph, p: nat, nd: nat, list: seq<nat>, lev: seq<nat>, mark: seq<bool>, i: nat)
    requires i < |list| && list[i] < |adj| && Walking(adj, p, nd, list, lev, mark, i, |adj[list[i]]|)
    ensures Walking(adj, p, nd, list, lev, mark, i + 1, 0)
    ensures forall k :: 0 <= k < |list| ==> list[k] < |adj|
  {
    assert Copying(adj, p, nd, list, lev, mark, i, |adj[list[i]]|);
    forall k | 0 <= k < |list| ensures list[k] < |adj| { assert list[k] in list; }
    if i + 1 < |list| {
      assert lev[i] <= lev[i + 1];
      assert EdgesWithin(adj, list, lev, list[i + 1], 0, lev[i + 1]);
    }
  }

  /** Once every entry is done, a walk of m edges ends in the list at level m or less. */
  lemma {:induction false} WalkWithin(adj: Graph, p: nat, nd: nat, list: seq<nat>, lev: seq<nat>, mark: seq<bool>,
                                      y: nat, m: nat)
    requires Copying(adj, p, nd, list, lev, mark, |list|, 0) && m > 0 && Walk(adj, p, y, m)
    ensures Within(list, lev, y, m)
    decreases m
  {
    var c: nat :| Walk(adj, p, c, m - 1) && Edge(adj, c, y);
    if m == 1 {
      assert c == p;
      var e :| 0 <= e < |adj[p]| && adj[p][e] == y;
      assert list[..nd][e] == list[e] == y && lev[e] == 1;
    } else {
      WalkWithin(adj, p, nd, list, lev, mark, c, m - 1);
      var l :| 0 <= l < |list| && l < |lev| && list[l] == c && lev[l] <= m - 1;
      assert DoneAt(adj, list, lev, l);
      var e :| 0 <= e < |adj[c]| && adj[c][e] == y;
      assert Within(list, lev, adj[c][e], lev[l] + 1);
    }
  }

  /** Levels are distances. */
  lemma LevelIsDistance(adj: Graph, p: nat, nd: nat, list: seq<nat>, lev: seq<nat>, mark: seq<bool>, k: nat)
    requires Copying(adj, p, nd, list, lev, mark, |list|, 0) && k < |list|
    ensures IsDistance(adj, p, list[k], lev[k])
  {
    forall m: nat | 0 < m && Walk(adj, p, list[k], m) ensures lev[k] <= m {
      WalkWithin(adj, p, nd, list, lev, mark, list[k], m);
      var l :| 0 <= l < |list| && l < |lev| && list[l] == list[k] && lev[l] <= m;
    }
    assert LevelAt(adj, p, list, lev, k);
  }

  lemma EndWalking(adj: Graph, p: nat, nd: nat, list: seq<nat>, lev: seq<nat>, mark: seq<bool>)
    requires Walking(adj, p, nd, list, lev, mark, |list|, 0)
    ensures IsBfsClosure(adj, p, nd, list)
  {
    assert Copying(adj, p, nd, list, lev, mark, |list|, 0);
    forall k | 0 <= k < |list| ensures IsDistance(adj, p, list[k], lev[k]) {
      LevelIsDistance(adj, p, nd, list, lev, mark, k);
    }
    forall y: nat | ReachPlus(adj, p, y) ensures y in list {
      var m: nat :| m > 0 && Walk(adj, p, y, m);
      WalkWithin(adj, p, nd, list, lev, mark, y, m);
    }
    assert BfsLevels(adj, p, nd, list, lev);
  }
}
