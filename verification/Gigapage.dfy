/** Top-level leaves in the measurement: two tables through which a processor sees the same, measured differently. */
module Gigapage {
  import opened Arith
  import opened Measure
  import PageTable

  /** The pages under a table are one run from the first on. */
  ghost predicate IsRun(s: seq<Seen>, flags: nat, d: Data, n: nat) {
    && 0 < n < |s| && (forall k :: 0 <= k < n ==> s[k] == Mapped(flags, d(k)))
    && (forall k :: n <= k < |s| ==> s[k] == Hole)
  }

  lemma RunSplit(s: seq<Seen>, flags: nat, d: Data, n: nat)
    requires IsRun(s, flags, d, n)
    ensures s == Leaves(d, flags, 0, n) + Holes(|s| - n)
  {
  }

  lemma OneRun(s: seq<Seen>, flags: nat, d: Data, n: nat, o: Sink)
    requires IsRun(s, flags, d, n)
    ensures Run(s, TOP, o).stream == o.stream + Header(TOP, flags, o.gap) + Contents(d, 0, n)
  {
    RunSplit(s, flags, d, n);
    RunConcat(Leaves(d, flags, 0, n), Holes(|s| - n), TOP, o);
    RunLeaves(d, flags, 0, n, TOP, o);
    RunHoles(|s| - n, TOP + n * PAGE_SIZE, Run(Leaves(d, flags, 0, n), TOP, o));
  }

  lemma StreamOf(tables: Tables, data: Data, p: nat, level: nat, o: Sink, flags: nat, d: Data, n: nat)
    requires level == 3 && WellFormed(tables, p, level) && IsRun(Pages(tables, data, p, level, 0), flags, d, n)
    ensures Walked(tables, data, p, level, 0, 0, o).stream == o.stream + Header(TOP, flags, o.gap) + Contents(d, 0, n)
  {
    WalkedRun(tables, data, p, level, 0, 0, o);
    OneRun(Pages(tables, data, p, level, 0), flags, d, n, o);
  }

  function Padded(s: Slot): (r: seq<Slot>)
    ensures |r| == PageTable.ENTRIES && r[0] == s && forall i :: 0 < i < PageTable.ENTRIES ==> r[i] == Empty
  {
    seq(PageTable.ENTRIES, i => if i == 0 then s else Empty)
  }

  /** The first gigabyte mapped by one leaf at the top level, */
  function ByOneLeaf(flags: nat): Tables {
    (p: nat) => if p == 1 then Padded(Leaf(flags, 0)) else []
  }

  /** and by 512 leaves a level below. */
  function ByManyLeaves(flags: nat): Tables {
    (p: nat) => ManyLeaves(flags, p)
  }

  function ManyLeaves(flags: nat, p: nat): seq<Slot> {
    if p == 1 then Padded(Table(2)) else if p == 2 then Row(flags) else []
  }

  function Row(flags: nat): (r: seq<Slot>)
    ensures |r| == PageTable.ENTRIES && forall i :: 0 <= i < PageTable.ENTRIES ==> r[i] == Leaf(flags, 512 * i)
  {
    seq(PageTable.ENTRIES, i requires 0 <= i < PageTable.ENTRIES => Leaf(flags, 512 * i))
  }

  lemma BothWellFormed(flags: nat, level: nat)
    requires level == 3
    ensures WellFormed(ByOneLeaf(flags), 1, level)
    ensures WellFormed(ByManyLeaves(flags), 1, level) && WellFormed(ByManyLeaves(flags), 2, level - 1)
  {
    var t := ByManyLeaves(flags);
    assert t(2) == Row(flags) && t(1) == Padded(Table(2));
    forall i | 0 <= i < PageTable.ENTRIES ensures SlotOk(t, t(2)[i], level - 1) { }
    forall i | 0 <= i < PageTable.ENTRIES ensures SlotOk(t, t(1)[i], level) { }
  }

  lemma Quotient(v: nat, n: nat)
    requires n > 0
    ensures v < n <==> v / n == 0
    ensures v < n ==> v % n == v
  {
    if v < n { DivModUnique(v, n, 0, v); } else { DivMod(v, n); }
  }

  lemma OneLeafView(data: Data, flags: nat, level: nat, n: nat, v: nat)
    requires level == 3 && v < Span(level) && n == Span(level - 1) && WellFormed(ByOneLeaf(flags), 1, level)
    ensures SeenAt(ByOneLeaf(flags), data, 1, level, v) == if v < n then Mapped(flags, data(v)) else Hole
    ensures PageAt(ByOneLeaf(flags), data, 1, level, v) == if v < n then Mapped(flags, Read(data, level)(v)) else Hole
  {
    SplitIndex(n, v);
    Quotient(v, n);
  }

  lemma ManyLeavesView(data: Data, flags: nat, level: nat, n: nat, v: nat)
    requires level == 3 && v < Span(level) && n == Span(level - 1)
    requires WellFormed(ByManyLeaves(flags), 1, level) && WellFormed(ByManyLeaves(flags), 2, level - 1)
    ensures SeenAt(ByManyLeaves(flags), data, 1, level, v) == if v < n then Mapped(flags, data(v)) else Hole
    ensures PageAt(ByManyLeaves(flags), data, 1, level, v) == if v < n then Mapped(flags, data(v)) else Hole
  {
    assert ByManyLeaves(flags)(1) == Padded(Table(2));
    SplitIndex(n, v);
    Quotient(v, n);
    if v < n { RowView(data, flags, level - 1, v); }
  }

  lemma RowView(data: Data, flags: nat, level: nat, v: nat)
    requires level == 2 && v < Span(level) && WellFormed(ByManyLeaves(flags), 2, level)
    ensures PageAt(ByManyLeaves(flags), data, 2, level, v) == Mapped(flags, data(v))
  {
    var n := Span(level - 1);
    assert n == 512 * Span(level - 2) && ByManyLeaves(flags)(2) == Row(flags);
    SplitIndex(n, v);
  }

  /** Page k belongs to a run of the first n pages. */
  ghost predicate ViewIs(tables: Tables, data: Data, p: nat, level: nat, flags: nat, d: Data, n: nat, k: nat) {
    WellFormed(tables, p, level) && level > 0 && k < Span(level) ==>
      PageAt(tables, data, p, level, k) == if k < n then Mapped(flags, d(k)) else Hole
  }

  lemma RunFromView(tables: Tables, data: Data, p: nat, level: nat, flags: nat, d: Data, n: nat, size: nat)
    requires level > 0 && WellFormed(tables, p, level) && 0 < n < size && size == Span(level)
    requires forall k: nat :: ViewIs(tables, data, p, level, flags, d, n, k)
    ensures IsRun(Pages(tables, data, p, level, 0), flags, d, n)
  {
    PagesCount(tables, data, p, level, 0);
    var s := Pages(tables, data, p, level, 0);
    assert |s| == size;
    forall k: nat | k < size ensures s[k] == if k < n then Mapped(flags, d(k)) else Hole {
      PageFound(tables, data, p, level, k);
      assert ViewIs(tables, data, p, level, flags, d, n, k);
    }
  }

  lemma OneLeafRun(data: Data, flags: nat, level: nat, n: nat)
    requires level == 3 && n == Span(level - 1) && WellFormed(ByOneLeaf(flags), 1, level)
    ensures IsRun(Pages(ByOneLeaf(flags), data, 1, level, 0), flags, Read(data, level), n)
  {
    forall k: nat ensures ViewIs(ByOneLeaf(flags), data, 1, level, flags, Read(data, level), n, k) {
      if k < Span(level) { OneLeafView(data, flags, level, n, k); }
    }
    RunFromView(ByOneLeaf(flags), data, 1, level, flags, Read(data, level), n, Span(level));
  }

  lemma ManyLeavesRun(data: Data, flags: nat, level: nat, n: nat)
    requires level == 3 && n == Span(level - 1)
    requires WellFormed(ByManyLeaves(flags), 1, level) && WellFormed(ByManyLeaves(flags), 2, level - 1)
    ensures IsRun(Pages(ByManyLeaves(flags), data, 1, level, 0), flags, data, n)
  {
    forall k: nat ensures ViewIs(ByManyLeaves(flags), data, 1, level, flags, data, n, k) {
      if k < Span(level) { ManyLeavesView(data, flags, level, n, k); }
    }
    RunFromView(ByManyLeaves(flags), data, 1, level, flags, data, n, Span(level));
  }

  /** Two tables through which a processor sees the same, and whose streams differ: of a top-level leaf the program
      hashes address and flags only. */
  lemma GigapageUnread(data: Data, flags: nat, level: nat, o: Sink)
    requires level == 3 && data(0) != []
    ensures WellFormed(ByOneLeaf(flags), 1, level) && WellFormed(ByManyLeaves(flags), 1, level)
    ensures forall v: nat :: v < Span(level) ==>
      SeenAt(ByOneLeaf(flags), data, 1, level, v) == SeenAt(ByManyLeaves(flags), data, 1, level, v)
    ensures Walked(ByOneLeaf(flags), data, 1, level, 0, 0, o) != Walked(ByManyLeaves(flags), data, 1, level, 0, 0, o)
  {
    BothWellFormed(flags, level);
    var n := Span(level - 1);
    forall v: nat | v < Span(level)
      ensures SeenAt(ByOneLeaf(flags), data, 1, level, v) == SeenAt(ByManyLeaves(flags), data, 1, level, v)
    {
      OneLeafView(data, flags, level, n, v);
      ManyLeavesView(data, flags, level, n, v);
    }
    OneLeafRun(data, flags, level, n);
    ManyLeavesRun(data, flags, level, n);
    StreamOf(ByOneLeaf(flags), data, 1, level, o, flags, Read(data, level), n);
    StreamOf(ByManyLeaves(flags), data, 1, level, o, flags, data, n);
    UnreadContents(data, 0, n, level);
    assert |Contents(data, 0, n)| > 0;
  }
}
