/** The dependency fields of struct dso and the two graph walks that update them in place. */
module Linker {
  import opened BfsDeps
  import opened Collections
  import opened DsoGraph
  import opened CtorQueue

  /** The null pointer that ends a queue. */
  const NULL: int := -1

  /** The queue fills the buffer from the front, the stack from the back. */
  ghost predicate Holds(buf: seq<int>, queue: seq<nat>, stack: seq<nat>) {
    && |queue| + |stack| <= |buf|
    && (forall k :: 0 <= k < |queue| ==> buf[k] == queue[k])
    && (forall k :: 0 <= k < |stack| ==> stack[k] == buf[|buf| - 1 - k])
  }

  lemma HoldsPush(buf: seq<int>, queue: seq<nat>, stack: seq<nat>, x: nat)
    requires Holds(buf, queue, stack) && |queue| + |stack| < |buf|
    ensures Holds(buf[|buf| - |stack| - 1 := x], queue, stack + [x])
  {
  }

  lemma HoldsEnqueue(buf: seq<int>, queue: seq<nat>, stack: seq<nat>, x: nat)
    requires Holds(buf, queue, stack) && |queue| + |stack| < |buf|
    ensures Holds(buf[|queue| := x], queue + [x], stack)
  {
  }

  /** The search state and the buffer with the top of the path in hand: the stack holds the rest. */
  ghost predicate AtNode(adj: Graph, root: nat, u: set<nat>, d: Dfs, buf: seq<int>, spos: nat, p: nat) {
    && Inv(adj, root, u, d) && Closed(adj, u) && |u| < |buf|
    && |d.path| > 0 && p == Top(d) && spos == |buf| - |d.path| + 1
    && Holds(buf, d.queue, d.path[..|d.path| - 1])
  }

  /** AtNode behind a bound variable, so that only proofs that name it see inside. */
  ghost predicate InHand(adj: Graph, root: nat, u: set<nat>, d: Dfs, buf: seq<int>, spos: nat, p: nat) {
    forall r: nat :: r == root ==> AtNode(adj, r, u, d, buf, spos, p)
  }

  /** Marks may differ on u only. */
  ghost predicate SameOutside(u: set<nat>, m: seq<bool>, m': seq<bool>) {
    |m| == |m'| && forall x :: 0 <= x < |m| && x !in u ==> m'[x] == m[x]
  }

  lemma SkipInHand(adj: Graph, root: nat, u: set<nat>, d: Dfs, buf: seq<int>, spos: nat, p: nat)
    requires InHand(adj, root, u, d, buf, spos, p) && HasEdge(adj, d)
    requires Target(adj, d) < |d.mark| && d.mark[Target(adj, d)]
    ensures InHand(adj, root, u, Skip(d), buf, spos, p)
  {
    assert AtNode(adj, root, u, d, buf, spos, p);
    assert Edge(adj, Top(d), Target(adj, d)) && Seen(d, Top(d));
    SkipKeeps(adj, root, u, d);
  }

  /** The buffer has room for the path, and the top moves to the stack. */
  lemma PushRoom(adj: Graph, u: set<nat>, d: Dfs, buf: seq<int>, c: nat)
    requires Shape(adj, u, d) && |d.path| > 0 && |u| < |buf| && c < |d.nextDep|
    requires Holds(buf, d.queue, d.path[..|d.path| - 1])
    ensures |d.path| <= |buf|
    ensures Holds(buf[|buf| - |d.path| := Top(d)], d.queue, Push(d, c).path[..|Push(d, c).path| - 1])
  {
    HeldBound(adj, u, d);
    HoldsPush(buf, d.queue, d.path[..|d.path| - 1], Top(d));
    assert Push(d, c).path[..|d.path|] == d.path[..|d.path| - 1] + [Top(d)];
  }

  lemma PushInHand(adj: Graph, root: nat, u: set<nat>, d: Dfs, buf: seq<int>, spos: nat, p: nat)
    requires InHand(adj, root, u, d, buf, spos, p) && HasEdge(adj, d)
    requires Target(adj, d) < |d.mark| && Target(adj, d) < |d.nextDep| && !d.mark[Target(adj, d)]
    ensures 0 < spos <= |buf| && Target(adj, d) in u
    ensures InHand(adj, root, u, Push(d, Target(adj, d)), buf[spos - 1 := p], spos - 1, Target(adj, d))
  {
    assert AtNode(adj, root, u, d, buf, spos, p);
    assert Edge(adj, Top(d), Target(adj, d)) && Seen(d, Top(d));
    PushKeeps(adj, root, u, d);
    PushRoom(adj, u, d, buf, Target(adj, d));
  }

  /** Between two rounds: the whole path is on the stack. */
  ghost predicate AllStacked(adj: Graph, root: nat, u: set<nat>, d: Dfs, buf: seq<int>, spos: nat, qpos: nat) {
    && Inv(adj, root, u, d) && Closed(adj, u) && |u| < |buf|
    && spos + |d.path| == |buf| && qpos == |d.queue| && Holds(buf, d.queue, d.path)
  }

  /** AllStacked behind a bound variable. */
  ghost predicate OnStack(adj: Graph, root: nat, u: set<nat>, d: Dfs, buf: seq<int>, spos: nat, qpos: nat) {
    forall r: nat :: r == root ==> AllStacked(adj, r, u, d, buf, spos, qpos)
  }

  lemma TakeTop(adj: Graph, root: nat, u: set<nat>, d: Dfs, buf: seq<int>, spos: nat)
    requires OnStack(adj, root, u, d, buf, spos, |d.queue|) && spos < |buf|
    ensures |d.path| > 0 && buf[spos] == Top(d) && Top(d) < |adj|
    ensures InHand(adj, root, u, d, buf, spos + 1, Top(d))
  {
    assert AllStacked(adj, root, u, d, buf, spos, |d.queue|);
  }

  lemma FinishBetween(adj: Graph, root: nat, u: set<nat>, d: Dfs, buf: seq<int>, spos: nat, p: nat)
    requires InHand(adj, root, u, d, buf, spos, p) && |d.path| > 0 && !HasEdge(adj, d)
    ensures |d.queue| < |buf| && p == Top(d)
    ensures OnStack(adj, root, u, Finish(d), buf[|d.queue| := p], spos, |d.queue| + 1) && spos <= |buf|
  {
    assert AtNode(adj, root, u, d, buf, spos, p);
    HeldBound(adj, u, d);
    FinishKeeps(adj, root, u, d);
    HoldsEnqueue(buf, d.queue, d.path[..|d.path| - 1], p);
  }

  /** The values a sequence names, no more than it has places. */
  ghost function Values(s: seq<nat>): (r: set<nat>)
    ensures |r| <= |s| && forall x :: x in r <==> x in s
  {
    if |s| == 0 then {} else Values(s[..|s| - 1]) + {s[|s| - 1]}
  }

  /** What clearing the marks of a list does to the marks of the list and one node more. */
  lemma ClearedMarks(list: seq<nat>, root: nat, before: seq<bool>, after: seq<bool>, u: set<nat>)
    requires u == Values(list) + {root} && |before| == |after| && root < |after|
    requires forall x :: x in list ==> x < |after|
    requires forall x :: 0 <= x < |after| ==> after[x] == (before[x] && x !in list)
    ensures forall x :: x in u ==> x < |after| && (x == root || !after[x])
    ensures SameOutside(u, before, after) && |u| < |list| + 2
  {
  }

  ghost function Upto(n: nat): (r: set<nat>)
    ensures |r| == n && forall x: nat :: x in r <==> x < n
  {
    if n == 0 then {} else Upto(n - 1) + {n - 1}
  }

  /** What a built dependency list holds, with its owner, no edge leaves. */
  lemma BuiltClosed(adj: Graph, root: nat, nd: nat, list: seq<nat>)
    requires IsBfsClosure(adj, root, nd, list)
    ensures Closed(adj, Values(list) + {root})
  {
    var u := Values(list) + {root};
    var lev: seq<nat> :| BfsLevels(adj, root, nd, list, lev);
    forall x, y | x in u && Edge(adj, x, y) ensures y in u {
      if x == root {
        assert Walk(adj, root, root, 0);
        assert Walk(adj, root, y, 1);
      } else {
        var k: nat :| k > 0 && Walk(adj, root, x, k);
        assert Walk(adj, root, y, k + 1);
      }
      assert ReachPlus(adj, root, y);
    }
  }

  /** The search starts with the root alone on the stack. */
  lemma StartOnStack(adj: Graph, root: nat, u: set<nat>, nextDep: seq<nat>, mark: seq<bool>, buf: seq<int>)
    requires WellFormed(adj) && root in u && Closed(adj, u) && |u| < |buf| && |nextDep| == |mark| == |adj|
    requires forall x :: x in u ==> x < |adj| && (x == root || !mark[x])
    requires buf[|buf| - 1] == root
    ensures OnStack(adj, root, u, Dfs([root], [], nextDep[root := 0], mark[root := true]), buf, |buf| - 1, 0)
  {
    StartInv(adj, root, u, nextDep, mark);
  }

  /** At the end the front of the buffer holds the finished queue and has a place left for the null. */
  lemma EndOnStack(adj: Graph, root: nat, u: set<nat>, d: Dfs, buf: seq<int>, spos: nat)
    requires OnStack(adj, root, u, d, buf, spos, |d.queue|) && spos >= |buf|
    ensures |d.queue| < |buf| && forall k :: 0 <= k < |d.queue| ==> buf[k] == d.queue[k]
    ensures IsCtorOrder(adj, root, d.queue)
    ensures |d.mark| == |adj| && forall x :: x in u ==> x < |adj| && (d.mark[x] <==> x in d.queue)
    ensures forall x :: x in d.queue ==> x in u
  {
    assert AllStacked(adj, root, u, d, buf, spos, |d.queue|);
    HeldBound(adj, u, d);
    EndInv(adj, root, u, d);
    forall x | x in u ensures x < |adj| && (d.mark[x] <==> x in d.queue) {
      assert d.mark[x] <==> Seen(d, x);
    }
    forall x | x in d.queue ensures x in u { assert Seen(d, x); }
  }

  /** Every object root leads to, once each, and each after what it depends on unless the two lead to
      each other. */
  ghost predicate IsCtorOrder(adj: Graph, root: nat, q: seq<nat>) {
    && Distinct(q) && Ordered(adj, q)
    && forall x :: x in q <==> Reach(adj, root, x)
  }

  /** The first ndirect[x] entries of each dependency list. */
  ghost function DirectGraph(deps: seq<seq<nat>>, ndirect: seq<nat>): (g: Graph)
    requires |deps| == |ndirect| && forall x :: 0 <= x < |deps| ==> ndirect[x] <= |deps[x]|
    ensures |g| == |deps| && forall x :: 0 <= x < |deps| ==> g[x] == deps[x][..ndirect[x]]
  {
    seq(|deps|, x requires 0 <= x < |deps| => deps[x][..ndirect[x]])
  }

  /** Entries beyond the direct dependencies do not change the graph. */
  lemma SameGraph(deps: seq<seq<nat>>, ndirect: seq<nat>, p: nat, list: seq<nat>)
    requires |deps| == |ndirect| && forall x :: 0 <= x < |deps| ==> ndirect[x] <= |deps[x]|
    requires p < |deps| && ndirect[p] <= |list| && list[..ndirect[p]] == deps[p][..ndirect[p]]
    ensures DirectGraph(deps[p := list], ndirect) == DirectGraph(deps, ndirect)
  {
  }

  /** Nothing but the list of p changed, and that one only grew. */
  ghost predicate OnlyListGrew(deps: seq<seq<nat>>, deps': seq<seq<nat>>, p: nat) {
    && |deps'| == |deps| && p < |deps| && deps[p] <= deps'[p]
    && forall x :: 0 <= x < |deps| && x != p ==> deps'[x] == deps[x]
  }

  /** How many of the listed nodes are unmarked. */
  function CountUnmarked(mark: seq<bool>, list: seq<nat>): nat
    requires forall k :: 0 <= k < |list| ==> list[k] < |mark|
  {
    if |list| == 0 then 0
    else CountUnmarked(mark, list[..|list| - 1]) + if mark[list[|list| - 1]] then 0 else 1
  }

  lemma CountNext(mark: seq<bool>, list: seq<nat>, j: nat)
    requires j < |list| && forall k :: 0 <= k < |list| ==> list[k] < |mark|
    ensures CountUnmarked(mark, list[..j + 1]) == CountUnmarked(mark, list[..j]) + if mark[list[j]] then 0 else 1
  {
    assert list[..j + 1][..j] == list[..j];
  }

  class DsoList {
    /** p->deps up to its null terminator: the direct dependencies, then those found by the walk. */
    var deps: seq<seq<nat>>
    var ndirect: seq<nat>
    var mark: seq<bool>
    var nextDep: seq<nat>
    var bfsBuilt: seq<bool>

    /** Dependency lists name nodes, and begin with the direct dependencies. */
    ghost predicate Lists()
      reads this`deps, this`ndirect
    {
      && |deps| == |ndirect|
      && (forall x :: 0 <= x < |deps| ==> ndirect[x] <= |deps[x]|)
      && (forall x, j :: 0 <= x < |deps| && 0 <= j < |deps[x]| ==> deps[x][j] < |deps|)
    }

    ghost predicate Sizes()
      reads this
    {
      Lists() && |deps| == |mark| == |nextDep| == |bfsBuilt|
    }

    /** The graph of direct dependencies. */
    ghost function Adj(): (g: Graph)
      requires Lists()
      reads this`deps, this`ndirect
      ensures |g| == |deps|
      ensures forall x :: 0 <= x < |deps| ==> g[x] == deps[x][..ndirect[x]]
      ensures WellFormed(g)
    {
      DirectGraph(deps, ndirect)
    }

    /** Dependency lists are the direct dependencies alone or, once built, everything they lead to. */
    ghost predicate Valid()
      reads this
    {
      && Sizes()
      && (forall x :: 0 <= x < |deps| && !bfsBuilt[x] ==> ndirect[x] == |deps[x]|)
      && (forall x: nat :: x < |deps| && bfsBuilt[x] ==> IsBfsClosure(Adj(), x, ndirect[x], deps[x]))
    }

    ghost predicate Tracks(d: Dfs)
      reads this
    {
      d.nextDep == nextDep && d.mark == mark
    }

    /** What the loops keep: the search state, its copy in the fields, and the node in hand above a stack
        that shares the buffer with the queue. */
    ghost predicate Searching(adj: Graph, root: nat, u: set<nat>, d: Dfs, buf: array<int>, spos: nat, p: nat)
      reads this, buf
    {
      && Sizes() && Adj() == adj && Tracks(d) && p < |deps| && |d.path| > 0 && p == Top(d)
      && InHand(adj, root, u, d, buf[..], spos, p)
    }

    /** The next edge of p leads to a marked node. */
    method SkipEdge(buf: array<int>, spos: nat, p: nat, ghost adj: Graph, ghost root: nat, ghost u: set<nat>,
                    ghost d: Dfs)
      requires Searching(adj, root, u, d, buf, spos, p)
      requires nextDep[p] < ndirect[p] && mark[deps[p][nextDep[p]]]
      modifies this`nextDep
      ensures Searching(adj, root, u, Skip(d), buf, spos, p)
      ensures nextDep[p] == old(nextDep[p]) + 1
    {
      assert adj[p] == deps[p][..ndirect[p]];
      assert deps[p][nextDep[p]] == Target(adj, d);
      SkipInHand(adj, root, u, d, buf[..], spos, p);
      nextDep := nextDep[p := nextDep[p] + 1];
    }

    method Enter(buf: array<int>, spos: nat, p: nat, dep: nat)
      requires spos < buf.Length && dep < |mark| && dep < |nextDep|
      modifies this`mark, this`nextDep, buf
      ensures buf[..] == old(buf[..])[spos := p] && mark == old(mark)[dep := true] && nextDep == old(nextDep)[dep := 0]
    {
      buf[spos] := p;
      nextDep := nextDep[dep := 0];
      mark := mark[dep := true];
    }

    /** The next edge of p leads to an unmarked node: p goes to the stack, the node is taken in hand. */
    method PushEdge(buf: array<int>, spos: nat, p: nat, ghost adj: Graph, ghost root: nat, ghost u: set<nat>,
                    ghost d: Dfs)
        returns (spos': nat, p': nat, ghost d': Dfs)
      requires Searching(adj, root, u, d, buf, spos, p)
      requires nextDep[p] < ndirect[p] && !mark[deps[p][nextDep[p]]]
      modifies this`mark, this`nextDep, buf
      ensures Searching(adj, root, u, d', buf, spos', p') && d'.queue == d.queue
      ensures Unmarked(mark) < old(Unmarked(mark))
      ensures SameOutside(u, old(mark), mark)
    {
      assert adj[p] == deps[p][..ndirect[p]];
      assert deps[p][nextDep[p]] == Target(adj, d);
      PushInHand(adj, root, u, d, buf[..], spos, p);
      spos' := spos - 1;
      p' := deps[p][nextDep[p]];
      Enter(buf, spos', p, p');
      MarkOne(d.mark, p');
      d' := Push(d, p');
    }

    /** The inner loop: follow edges to unseen nodes until the node in hand has none. */
    method Descend(buf: array<int>, spos0: nat, p0: nat, ghost adj: Graph, ghost root: nat, ghost u: set<nat>,
                   ghost d0: Dfs)
        returns (spos: nat, p: nat, ghost d: Dfs)
      requires Searching(adj, root, u, d0, buf, spos0, p0)
      modifies this`mark, this`nextDep, buf
      ensures Searching(adj, root, u, d, buf, spos, p) && d.queue == d0.queue && !HasEdge(adj, d)
      ensures Unmarked(mark) < old(Unmarked(mark)) || (Unmarked(mark) == old(Unmarked(mark)) && d.path == d0.path)
      ensures SameOutside(u, old(mark), mark)
    {
      spos, p, d := spos0, p0, d0;
      while nextDep[p] < ndirect[p]
        invariant Searching(adj, root, u, d, buf, spos, p) && d.queue == d0.queue
        invariant Unmarked(mark) < old(Unmarked(mark)) || (Unmarked(mark) == old(Unmarked(mark)) && d.path == d0.path)
        invariant SameOutside(u, old(mark), mark)
        decreases Unmarked(mark), ndirect[p] as int - nextDep[p] as int
      {
        if mark[deps[p][nextDep[p]]] {
          SkipEdge(buf, spos, p, adj, root, u, d);
          d := Skip(d);
        } else {
          spos, p, d := PushEdge(buf, spos, p, adj, root, u, d);
        }
      }
      assert adj[p] == deps[p][..ndirect[p]];
    }

    /** One round: take the top of the stack, finish everything below it, queue it. */
    method Round(buf: array<int>, spos0: nat, qpos0: nat, ghost adj: Graph, ghost root: nat, ghost u: set<nat>,
                 ghost d0: Dfs)
        returns (spos: nat, qpos: nat, ghost d: Dfs)
      requires Between(adj, root, u, d0, buf, spos0, qpos0) && qpos0 == |d0.queue| && spos0 < buf.Length
      modifies this`mark, this`nextDep, buf
      ensures Between(adj, root, u, d, buf, spos, qpos) && qpos == |d.queue| && spos <= buf.Length
      ensures Unmarked(mark) < old(Unmarked(mark)) || (Unmarked(mark) == old(Unmarked(mark)) && |d.path| < |d0.path|)
      ensures SameOutside(u, old(mark), mark)
    {
      var p: int := buf[spos0];
      TakeTop(adj, root, u, d0, buf[..], spos0);
      var node: nat;
      ghost var d1;
      spos, node, d1 := Descend(buf, spos0 + 1, p, adj, root, u, d0);
      FinishBetween(adj, root, u, d1, buf[..], spos, node);
      ghost var before := buf[..];
      buf[qpos0] := node;
      assert buf[..] == before[qpos0 := node];
      qpos := qpos0 + 1;
      d := Finish(d1);
    }

    /** Between rounds the whole path is on the stack. */
    ghost predicate Between(adj: Graph, root: nat, u: set<nat>, d: Dfs, buf: array<int>, spos: nat, qpos: nat)
      reads this, buf
    {
      && Sizes() && Adj() == adj && Tracks(d)
      && OnStack(adj, root, u, d, buf[..], spos, qpos)
    }

    /** Clear the marks of the nodes in the list. */
    method ClearListed(list: seq<nat>)
      requires forall x :: x in list ==> x < |mark|
      modifies this`mark
      ensures |mark| == |old(mark)|
      ensures forall x :: 0 <= x < |mark| ==> mark[x] == (old(mark)[x] && x !in list)
    {
      var i := 0;
      while i < |list|
        invariant 0 <= i <= |list| && |mark| == |old(mark)|
        invariant forall x :: 0 <= x < |mark| ==> mark[x] == (old(mark)[x] && x !in list[..i])
      {
        assert list[..i + 1] == list[..i] + [list[i]];
        assert list[i] in list;
        mark := mark[list[i] := false];
        i := i + 1;
      }
      assert list[..i] == list;
    }

    /** Clear every mark, counting the nodes. */
    method ClearAll() returns (cnt: nat)
      modifies this`mark
      ensures cnt == |mark| == |old(mark)| && forall x :: 0 <= x < |mark| ==> !mark[x]
    {
      cnt := 0;
      while cnt < |mark|
        invariant 0 <= cnt <= |mark| == |old(mark)| && forall x :: 0 <= x < cnt ==> !mark[x]
      {
        mark := mark[cnt := false];
        cnt := cnt + 1;
      }
    }

    /** u holds root, no edge leaves it, and its marks but root's are clear. */
    ghost predicate Ready(root: nat, u: set<nat>)
      reads this
    {
      && Sizes() && root in u && Closed(Adj(), u)
      && forall x :: x in u ==> x < |deps| && (x == root || !mark[x])
    }

    /** Clear the marks of everything root leads to by its built list. */
    method PrepareBuilt(root: nat) returns (cnt: nat, ghost u: set<nat>)
      requires Valid() && root < |deps| && bfsBuilt[root]
      modifies this`mark
      ensures Ready(root, u) && |u| < cnt && SameOutside(u, old(mark), mark)
    {
      BuiltClosed(Adj(), root, ndirect[root], deps[root]);
      ghost var before := mark;
      ClearListed(deps[root]);
      cnt := |deps[root]| + 2;
      u := Values(deps[root]) + {root};
      ClearedMarks(deps[root], root, before, mark, u);
    }

    /** Clear every mark. */
    method PrepareAll(root: nat) returns (cnt: nat, ghost u: set<nat>)
      requires Sizes() && root < |deps|
      modifies this`mark
      ensures Ready(root, u) && |u| < cnt && SameOutside(u, old(mark), mark)
    {
      cnt := ClearAll();
      cnt := cnt + 1;
      u := Upto(|deps|);
    }

    /** Clear the marks of whatever root may lead to; cnt bounds the queue and its null. */
    method Prepare(root: nat) returns (cnt: nat, ghost u: set<nat>)
      requires Valid() && root < |deps|
      modifies this`mark
      ensures Ready(root, u) && |u| < cnt && SameOutside(u, old(mark), mark)
    {
      if bfsBuilt[root] {
        cnt, u := PrepareBuilt(root);
      } else {
        cnt, u := PrepareAll(root);
      }
    }

    /** The root alone on the stack. */
    method Start(buf: array<int>, root: nat, ghost u: set<nat>) returns (ghost d: Dfs)
      requires Ready(root, u) && |u| < buf.Length
      modifies this`mark, this`nextDep, buf
      ensures Between(Adj(), root, u, d, buf, buf.Length - 1, 0) && d.queue == []
      ensures SameOutside(u, old(mark), mark)
    {
      buf[buf.Length - 1] := root;
      StartOnStack(Adj(), root, u, nextDep, mark, buf[..]);
      nextDep := nextDep[root := 0];
      mark := mark[root := true];
      d := Dfs([root], [], nextDep, mark);
    }

    method ClearQueued(buf: array<int>, qpos: nat, ghost q: seq<nat>)
      requires qpos == |q| < buf.Length && forall k :: 0 <= k < |q| ==> buf[k] == q[k]
      requires forall x :: x in q ==> x < |mark|
      modifies this`mark
      ensures |mark| == |old(mark)|
      ensures forall x :: 0 <= x < |mark| ==> mark[x] == (old(mark)[x] && x !in q)
    {
      var i := 0;
      while i < qpos
        invariant 0 <= i <= qpos && |mark| == |old(mark)|
        invariant forall x :: 0 <= x < |mark| ==> mark[x] == (old(mark)[x] && x !in q[..i])
      {
        assert q[..i + 1] == q[..i] + [q[i]];
        assert q[i] in q;
        mark := mark[buf[i] := false];
        i := i + 1;
      }
      assert q[..i] == q;
    }

    /** The outer loop: rounds until the stack is empty. */
    method Rounds(buf: array<int>, spos0: nat, ghost adj: Graph, ghost root: nat, ghost u: set<nat>, ghost d0: Dfs)
        returns (qpos: nat, ghost d: Dfs)
      requires Between(adj, root, u, d0, buf, spos0, 0) && d0.queue == [] && spos0 <= buf.Length
      modifies this`mark, this`nextDep, buf
      ensures Between(adj, root, u, d, buf, buf.Length, qpos) && qpos == |d.queue|
      ensures SameOutside(u, old(mark), mark)
    {
      var spos: nat := spos0;
      qpos, d := 0, d0;
      while spos < buf.Length
        invariant Between(adj, root, u, d, buf, spos, qpos) && qpos == |d.queue| && spos <= buf.Length
        invariant SameOutside(u, old(mark), mark)
        decreases Unmarked(mark), |d.path|
      {
        spos, qpos, d := Round(buf, spos, qpos, adj, root, u, d);
      }
    }

    /** The constructor queue of root: a null-ended array of every object root leads to, dependencies first. */
    method QueueCtors(root: nat) returns (buf: array<int>, ghost q: seq<nat>)
      requires Valid() && root < |deps|
      modifies this`mark, this`nextDep
      ensures fresh(buf) && |q| < buf.Length && buf[|q|] == NULL && forall k :: 0 <= k < |q| ==> buf[k] == q[k]
      ensures Valid() && IsCtorOrder(Adj(), root, q)
      ensures forall x :: 0 <= x < |mark| && mark[x] ==> old(mark)[x] && !Reach(Adj(), root, x)
    {
      ghost var m0 := mark;
      var cnt: nat;
      ghost var u;
      cnt, u := Prepare(root);
      buf := new int[cnt];
      ghost var d := Start(buf, root, u);
      var qpos: nat;
      qpos, d := Rounds(buf, cnt - 1, Adj(), root, u, d);
      q := d.queue;
      EndOnStack(Adj(), root, u, d, buf[..], cnt);
      buf[qpos] := NULL;
      ClearQueued(buf, qpos, q);
      assert m0 == old(mark);
    }

    /** The list of p under extension, entry i being copied up to edge j. */
    ghost predicate Extending(adj: Graph, p: nat, lev: seq<nat>, i: nat, j: nat)
      reads this
    {
      && Sizes() && Adj() == adj && p < |deps| && i <= |deps[p]| == |lev|
      && Walking(adj, p, ndirect[p], deps[p], lev, mark, i, j)
    }

    /** Append y to the list of p and mark it. */
    method Append(p: nat, y: nat)
      requires Sizes() && p < |deps| && y < |deps|
      modifies this`deps, this`mark
      ensures deps == old(deps)[p := old(deps)[p] + [y]] && mark == old(mark)[y := true]
      ensures Sizes() && Adj() == old(Adj())
    {
      SameGraph(deps, ndirect, p, deps[p] + [y]);
      deps := deps[p := deps[p] + [y]];
      mark := mark[y := true];
    }

    /** Edge j of entry i: skipped when marked, appended otherwise. */
    method CopyEdge(p: nat, i: nat, j: nat, ghost adj: Graph, ghost lev: seq<nat>) returns (ghost lev': seq<nat>)
      requires Extending(adj, p, lev, i, j) && i < |deps[p]| && j < |adj[deps[p][i]]|
      modifies this`deps, this`mark
      ensures Extending(adj, p, lev', i, j + 1) && OnlyListGrew(old(deps), deps, p)
      ensures deps[p][i] == old(deps[p][i]) && Unmarked(mark) + |deps[p]| == old(Unmarked(mark) + |deps[p]|)
      ensures |deps[p]| == old(|deps[p]|) + if old(mark[adj[deps[p][i]][j]]) then 0 else 1
      ensures forall x :: 0 <= x < |mark| && old(mark)[x] ==> mark[x]
    {
      var dep := deps[p][i];
      var y := deps[dep][j];
      assert y == adj[dep][j];
      if mark[y] {
        SkipWalking(adj, p, ndirect[p], deps[p], lev, mark, i, j);
        lev' := lev;
      } else {
        AppendWalking(adj, p, ndirect[p], deps[p], lev, mark, i, j);
        MarkOne(mark, y);
        Append(p, y);
        lev' := lev + [lev[i] + 1];
      }
    }

    /** How many direct dependencies of dep are not in the list: the slots to add. */
    method CountNew(dep: nat) returns (cnt: nat)
      requires Sizes() && dep < |deps|
      ensures cnt == CountUnmarked(mark, Adj()[dep])
    {
      var j := 0;
      cnt := 0;
      ghost var list := Adj()[dep];
      while j < ndirect[dep]
        invariant 0 <= j <= ndirect[dep] && cnt == CountUnmarked(mark, list[..j])
      {
        CountNext(mark, list, j);
        if !mark[deps[dep][j]] { cnt := cnt + 1; }
        j := j + 1;
      }
      assert list[..j] == list;
    }

    /** Copy the direct dependencies of entry i that are not in the list; they fit the slots counted for them. */
    method CopyEdges(p: nat, i: nat, ghost adj: Graph, ghost lev: seq<nat>) returns (ghost lev': seq<nat>)
      requires Extending(adj, p, lev, i, 0) && i < |deps[p]|
      modifies this`deps, this`mark
      ensures Extending(adj, p, lev', i + 1, 0) && OnlyListGrew(old(deps), deps, p)
      ensures Unmarked(mark) + |deps[p]| == old(Unmarked(mark) + |deps[p]|)
    {
      var dep := deps[p][i];
      var cnt := CountNew(dep);
      ghost var list, m0, n0 := adj[dep], mark, |deps[p]|;
      var j := 0;
      lev' := lev;
      while j < ndirect[dep]
        invariant 0 <= j <= ndirect[dep] == |list| && Extending(adj, p, lev', i, j) && OnlyListGrew(old(deps), deps, p)
        invariant i < |deps[p]| && deps[p][i] == dep && Unmarked(mark) + |deps[p]| == old(Unmarked(mark) + |deps[p]|)
        invariant n0 <= |deps[p]| <= n0 + CountUnmarked(m0, list[..j])
        invariant |mark| == |m0| && forall x :: 0 <= x < |mark| && m0[x] ==> mark[x]
      {
        CountNext(m0, list, j);
        lev' := CopyEdge(p, i, j, adj, lev');
        j := j + 1;
      }
      assert list[..j] == list;
      assert |deps[p]| <= n0 + cnt;
      NextWalking(adj, p, ndirect[p], deps[p], lev', mark, i);
    }

    /** Replace the direct dependencies of p by everything they lead to, nearest first. */
    method ExtendBfsDeps(p: nat)
      requires Valid() && p < |deps|
      requires forall x :: 0 <= x < |mark| ==> !mark[x]
      modifies this`deps, this`mark, this`bfsBuilt
      ensures Valid() && Adj() == old(Adj()) && OnlyListGrew(old(deps), deps, p)
      ensures bfsBuilt == old(bfsBuilt)[p := true] && (old(bfsBuilt[p]) ==> deps == old(deps))
      ensures |mark| == |old(mark)| && forall x :: 0 <= x < |mark| ==> !mark[x]
    {
      if bfsBuilt[p] {
        assert bfsBuilt == old(bfsBuilt)[p := true];
        return;
      }
      CloseList(p);
      bfsBuilt := bfsBuilt[p := true];
      var n := ClearAll();
    }

    /** The loop over the growing list. */
    method CloseList(p: nat)
      requires Sizes() && p < |deps| && ndirect[p] == |deps[p]|
      requires forall x :: 0 <= x < |mark| ==> !mark[x]
      modifies this`deps, this`mark
      ensures Sizes() && Adj() == old(Adj()) && OnlyListGrew(old(deps), deps, p)
      ensures IsBfsClosure(Adj(), p, ndirect[p], deps[p])
    {
      ghost var adj := Adj();
      ghost var lev := MarkDirect(p);
      var i := 0;
      while i < |deps[p]|
        invariant 0 <= i && Extending(adj, p, lev, i, 0) && OnlyListGrew(old(deps), deps, p)
        decreases Unmarked(mark) + |deps[p]| - i
      {
        lev := CopyEdges(p, i, adj, lev);
        i := i + 1;
      }
      EndWalking(adj, p, ndirect[p], deps[p], lev, mark);
    }

    /** Mark the direct dependencies. */
    method MarkDirect(p: nat) returns (ghost lev: seq<nat>)
      requires Sizes() && p < |deps| && ndirect[p] == |deps[p]|
      requires forall x :: 0 <= x < |mark| ==> !mark[x]
      modifies this`mark
      ensures Extending(old(Adj()), p, lev, 0, 0)
    {
      var i := 0;
      ghost var list := deps[p];
      while i < |deps[p]|
        invariant 0 <= i <= |list| && |mark| == |old(mark)|
        invariant forall x: nat :: x < |mark| ==> (mark[x] <==> x in list[..i])
      {
        assert list[..i + 1] == list[..i] + [list[i]];
        mark := mark[deps[p][i] := true];
        i := i + 1;
      }
      assert list[..i] == list == Adj()[p];
      StartWalking(Adj(), p, mark);
      lev := seq(|list|, _ => 1);
    }
  }
}
