/** The measurement of an enclave's pages: hash_enclave_mem of sign_tool/attest.c, with the hash as a byte sink. */
module Measure {
  import opened Arith
  import opened Collections
  import PageTable

  /** The lowest virtual address: the 39-bit addresses are sign extended. */
  const TOP: nat := 0x1_0000_0000_0000_0000 - 0x80_0000_0000

  const PAGE_SIZE: nat := 4096

  /** What an entry says: nothing without V; with R or X a leaf, of which the low byte is hashed; else a table. */
  datatype Slot = Empty | Leaf(flags: nat, page: nat) | Table(page: nat)

  function Decode(e: nat): Slot {
    if !PageTable.IsValid(e) then Empty
    else if e / 2 % 2 == 1 || e / 8 % 2 == 1 then Leaf(e % 256, PageTable.PageOf(e))
    else Table(PageTable.PageOf(e))
  }

  /** Tables by page number, and page contents by page number. */
  type Tables = nat -> seq<Slot>
  type Data = nat -> seq<nat>

  /** The tables in memory. */
  function Decoded(mem: PageTable.Memory): Tables {
    p => if p in mem then seq(|mem[p]|, i requires 0 <= i < |mem[p]| => Decode(mem[p][i])) else []
  }

  /** Tables down to the last level hold 512 entries. */
  ghost predicate WellFormed(tables: Tables, p: nat, level: nat)
    decreases level, 1
  {
    level > 0 ==> |tables(p)| == PageTable.ENTRIES && forall i :: 0 <= i < PageTable.ENTRIES ==>
      SlotOk(tables, tables(p)[i], level)
  }

  /** Below the last level nothing is read. */
  ghost predicate SlotOk(tables: Tables, s: Slot, level: nat)
    decreases level, 0
  {
    level > 0 && s.Table? ==> WellFormed(tables, s.page, level - 1)
  }

  /** How many pages lie under a table of the level. */
  function Span(level: nat): (n: nat)
    ensures n > 0
  {
    if level == 0 then 1 else 512 * Span(level - 1)
  }

  /** Little-endian bytes of an address. */
  function Bytes(x: nat): seq<nat> {
    seq(8, k requires 0 <= k < 8 => ByteOf(x, k))
  }

  function ByteOf(x: nat, k: nat): nat {
    PowPos(256, k);
    x / Pow(256, k) % 256
  }

  /** The contents of pages p to q. */
  function Contents(data: Data, p: nat, q: nat): seq<nat>
    decreases q - p
  {
    if p >= q then [] else data(p) + Contents(data, p + 1, q)
  }

  /** Bytes hashed so far, and whether the next mapped page begins a run. */
  datatype Sink = Sink(stream: seq<nat>, gap: bool)

  /** Address and flags, when a run begins. */
  function Header(va: nat, flags: nat, gap: bool): seq<nat> {
    if gap then Bytes(va) + [flags] else []
  }

  /** Bytes of a leaf: 4 KiB at level 1, 2 MiB at level 2, none above. */
  function LeafBytes(data: Data, page: nat, level: nat): seq<nat> {
    if level == 1 then data(page) else if level == 2 then Contents(data, page, page + PageTable.ENTRIES) else []
  }

  /** The contents that the program reads of a leaf's pages: none at the top level. */
  function Read(data: Data, level: nat): Data {
    if level < 3 then data else (p: nat) => []
  }

  function Address(level: nat, va: nat, i: nat): nat
    requires level > 0
  {
    (if level == 3 then TOP else va) + i * Span(level - 1) * PAGE_SIZE
  }

  /** The walk from entry i of table p on. */
  ghost function Walked(tables: Tables, data: Data, p: nat, level: nat, va: nat, i: nat, o: Sink): Sink
    requires WellFormed(tables, p, level) && i <= PageTable.ENTRIES
    decreases level, PageTable.ENTRIES - i
  {
    if level == 0 then Sink(o.stream, true)
    else if i == PageTable.ENTRIES then o
    else Walked(tables, data, p, level, va, i + 1, Entered(tables, data, tables(p)[i], level, Address(level, va, i), o))
  }

  /** What one entry does to the sink. */
  ghost function Entered(tables: Tables, data: Data, s: Slot, level: nat, va: nat, o: Sink): Sink
    requires level > 0 && SlotOk(tables, s, level)
    decreases level, 0
  {
    match s
    case Empty => Sink(o.stream, true)
    case Leaf(flags, page) => Sink(o.stream + Header(va, flags, o.gap) + LeafBytes(data, page, level), false)
    case Table(page) => Walked(tables, data, page, level - 1, va, 0, o)
  }

  /** The loop body: one entry of a table in memory. */
  method HashEntry(mem: PageTable.Memory, data: Data, e: nat, level: nat, currVa: nat, o: Sink) returns (r: Sink)
    requires level > 0 && SlotOk(Decoded(mem), Decode(e), level)
    ensures r == Entered(Decoded(mem), data, Decode(e), level, currVa, o)
    decreases level, 0
  {
    var stream, gap := o.stream, o.gap;
    if !PageTable.IsValid(e) { return Sink(stream, true); }
    if e / 2 % 2 == 1 || e / 8 % 2 == 1 {
      r := HashLeaf(data, e % 256, PageTable.PageOf(e), level, currVa, o);
    } else {
      r := HashMem(mem, data, PageTable.PageOf(e), level - 1, currVa, o);
    }
  }

  method HashLeaf(data: Data, flags: nat, page: nat, level: nat, currVa: nat, o: Sink) returns (r: Sink)
    ensures r == Sink(o.stream + Header(currVa, flags, o.gap) + LeafBytes(data, page, level), false)
  {
    var stream, gap := o.stream, o.gap;
    if gap {
      stream := stream + (Bytes(currVa) + [flags]);
      gap := false;
    }
    if level == 1 {
      stream := stream + data(page);
    } else if level == 2 {
      stream := stream + Contents(data, page, page + PageTable.ENTRIES);
    }
    r := Sink(stream, gap);
    assert o.stream + Header(currVa, flags, o.gap) + LeafBytes(data, page, level) == stream;
  }

  /** hash_enclave_mem: the entries of a table in order, tables below them on the way. */
  method HashMem(mem: PageTable.Memory, data: Data, p: nat, level: nat, va: nat, o: Sink) returns (r: Sink)
    requires WellFormed(Decoded(mem), p, level)
    ensures r == Walked(Decoded(mem), data, p, level, va, 0, o)
    decreases level, 1
  {
    if level == 0 { return Sink(o.stream, true); }
    r := o;
    var i := 0;
    while i < PageTable.ENTRIES
      invariant 0 <= i <= PageTable.ENTRIES
      invariant Walked(Decoded(mem), data, p, level, va, i, r) == Walked(Decoded(mem), data, p, level, va, 0, o)
    {
      assert SlotOk(Decoded(mem), Decoded(mem)(p)[i], level);
      r := HashEntry(mem, data, mem[p][i], level, Address(level, va, i), r);
      i := i + 1;
    }
  }

  // ----- the virtual view -----

  /** What is seen of a page: its low flag byte and its contents, if it is mapped. */
  datatype Seen = Hole | Mapped(flags: nat, bytes: seq<nat>)

  /** No leaf at the top level. */
  ghost predicate NoGigapages(tables: Tables, root: nat) {
    forall i :: 0 <= i < |tables(root)| ==> !tables(root)[i].Leaf?
  }

  /** The pages under the entries from i on, in order of address. */
  ghost function Pages(tables: Tables, data: Data, p: nat, level: nat, i: nat): (s: seq<Seen>)
    requires WellFormed(tables, p, level) && level > 0 && i <= PageTable.ENTRIES
    decreases level, PageTable.ENTRIES - i
  {
    if i == PageTable.ENTRIES then []
    else Under(tables, data, tables(p)[i], level) + Pages(tables, data, p, level, i + 1)
  }

  ghost function Under(tables: Tables, data: Data, s: Slot, level: nat): (r: seq<Seen>)
    requires level > 0 && SlotOk(tables, s, level)
    decreases level, 0
  {
    match s
    case Empty => Holes(Span(level - 1))
    case Leaf(flags, page) => Leaves(Read(data, level), flags, page, Span(level - 1))
    case Table(page) => if level == 1 then Holes(Span(level - 1)) else Pages(tables, data, page, level - 1, 0)
  }

  ghost function Holes(n: nat): (s: seq<Seen>)
    ensures |s| == n && forall k :: 0 <= k < n ==> s[k] == Hole
  {
    if n == 0 then [] else [Hole] + Holes(n - 1)
  }

  ghost function Leaves(data: Data, flags: nat, p: nat, n: nat): (s: seq<Seen>)
    ensures |s| == n && forall k :: 0 <= k < n ==> s[k] == Mapped(flags, data(p + k))
    decreases n
  {
    if n == 0 then [] else [Mapped(flags, data(p))] + Leaves(data, flags, p + 1, n - 1)
  }

  lemma {:induction false} PagesCount(tables: Tables, data: Data, p: nat, level: nat, i: nat)
    requires WellFormed(tables, p, level) && level > 0 && i <= PageTable.ENTRIES
    ensures |Pages(tables, data, p, level, i)| == (PageTable.ENTRIES - i) * Span(level - 1)
    decreases level, PageTable.ENTRIES - i
  {
    if i < PageTable.ENTRIES {
      UnderCount(tables, data, tables(p)[i], level);
      PagesCount(tables, data, p, level, i + 1);
      assert (PageTable.ENTRIES - i) * Span(level - 1) ==
        Span(level - 1) + (PageTable.ENTRIES - (i + 1)) * Span(level - 1);
    }
  }

  lemma {:induction false} UnderCount(tables: Tables, data: Data, s: Slot, level: nat)
    requires level > 0 && SlotOk(tables, s, level)
    ensures |Under(tables, data, s, level)| == Span(level - 1)
    decreases level, 0
  {
    if s.Table? && level > 1 { PagesCount(tables, data, s.page, level - 1, 0); }
  }

  /** What the measurement sees of page k under table p, found by the walk a processor makes. */
  ghost function PageAt(tables: Tables, data: Data, p: nat, level: nat, k: nat): Seen
    requires WellFormed(tables, p, level) && level > 0 && k < Span(level)
    decreases level, 1
  {
    SplitIndex(Span(level - 1), k);
    SlotAt(tables, data, tables(p)[k / Span(level - 1)], level, k % Span(level - 1))
  }

  ghost function SlotAt(tables: Tables, data: Data, s: Slot, level: nat, k: nat): Seen
    requires level > 0 && SlotOk(tables, s, level) && k < Span(level - 1)
    decreases level, 0
  {
    match s
    case Empty => Hole
    case Leaf(flags, page) => LeafSeen(data, flags, page, level, k)
    case Table(page) => if level == 1 then Hole else PageAt(tables, data, page, level - 1, k)
  }

  ghost function LeafSeen(data: Data, flags: nat, page: nat, level: nat, k: nat): Seen {
    Mapped(flags, Read(data, level)(page + k))
  }

  lemma SplitIndex(n: nat, k: nat)
    requires n > 0 && k < 512 * n
    ensures k / n < 512 && k % n < n && k == k / n * n + k % n
  {
    var q := k / n;
    assert k == q * n + k % n;
    assert q >= 512 ==> q * n >= 512 * n;
  }

  /** The list of pages is the list of what that walk finds: m is where page k of entry j stands. */
  lemma {:induction false} PagesAt(tables: Tables, data: Data, p: nat, level: nat, i: nat, j: nat, k: nat, m: nat)
    requires WellFormed(tables, p, level) && level > 0 && i <= j < PageTable.ENTRIES && k < Span(level - 1)
    requires Place(j - i, Span(level - 1), k, m)
    ensures m < |Pages(tables, data, p, level, i)|
    ensures Pages(tables, data, p, level, i)[m] == SlotAt(tables, data, tables(p)[j], level, k)
    decreases level, PageTable.ENTRIES - i
  {
    var n := Span(level - 1);
    UnderCount(tables, data, tables(p)[i], level);
    var u, r := Under(tables, data, tables(p)[i], level), Pages(tables, data, p, level, i + 1);
    assert Pages(tables, data, p, level, i) == u + r;
    if i == j {
      ThisEntry(j - i, n, k, m);
      UnderAt(tables, data, tables(p)[i], level, k);
      assert (u + r)[m] == u[k];
    } else {
      OneEntryLess(j - i, n, k, m);
      PagesAt(tables, data, p, level, i + 1, j, k, m - n);
      assert (u + r)[m] == r[m - n];
    }
  }

  /** Page k after d entries of n pages each is page m; behind a bound variable, to keep products out of sight. */
  ghost predicate Place(d: nat, n: nat, k: nat, m: nat) {
    forall x: nat :: x == n ==> PlaceAt(d, x, k, m)
  }

  ghost predicate PlaceAt(d: nat, n: nat, k: nat, m: nat) {
    m == d * n + k
  }

  lemma ThisEntry(d: nat, n: nat, k: nat, m: nat)
    requires d == 0 && Place(d, n, k, m)
    ensures m == k
  {
    assert PlaceAt(d, n, k, m);
  }

  lemma OneEntryLess(d: nat, n: nat, k: nat, m: nat)
    requires d > 0 && Place(d, n, k, m)
    ensures m >= n && Place(d - 1, n, k, m - n)
  {
    assert PlaceAt(d, n, k, m);
    assert d * n == n + (d - 1) * n;
  }

  lemma {:induction false} UnderAt(tables: Tables, data: Data, s: Slot, level: nat, k: nat)
    requires level > 0 && SlotOk(tables, s, level) && k < Span(level - 1)
    ensures k < |Under(tables, data, s, level)| && Under(tables, data, s, level)[k] == SlotAt(tables, data, s, level, k)
    decreases level, 0
  {
    UnderCount(tables, data, s, level);
    match s
    case Empty =>
    case Leaf(flags, page) => LeafUnder(data, flags, page, level, Span(level - 1), k);
    case Table(page) => if level > 1 { PageFound(tables, data, page, level - 1, k); }
  }

  lemma LeafUnder(data: Data, flags: nat, page: nat, level: nat, n: nat, k: nat)
    requires k < n
    ensures Leaves(Read(data, level), flags, page, n)[k] == LeafSeen(data, flags, page, level, k)
  {
  }

  lemma {:induction false} PageFound(tables: Tables, data: Data, p: nat, level: nat, k: nat)
    requires WellFormed(tables, p, level) && level > 0 && k < Span(level)
    ensures k < |Pages(tables, data, p, level, 0)|
    ensures Pages(tables, data, p, level, 0)[k] == PageAt(tables, data, p, level, k)
    decreases level, PageTable.ENTRIES + 1
  {
    var n := Span(level - 1);
    SplitIndex(n, k);
    assert PlaceAt(k / n, n, k % n, k);
    PagesAt(tables, data, p, level, 0, k / n, k % n, k);
  }

  // ----- the stream as a function of the view -----

  /** One page: contents if it is mapped, after address and flags if it begins a run. */
  ghost function Feed(s: Seen, va: nat, o: Sink): Sink {
    match s
    case Hole => Sink(o.stream, true)
    case Mapped(flags, bytes) => Sink(o.stream + Header(va, flags, o.gap) + bytes, false)
  }

  ghost function Run(s: seq<Seen>, va: nat, o: Sink): Sink
    decreases |s|
  {
    if |s| == 0 then o else Run(s[1..], va + PAGE_SIZE, Feed(s[0], va, o))
  }

  lemma {:induction false} RunConcat(s: seq<Seen>, t: seq<Seen>, va: nat, o: Sink)
    ensures Run(s + t, va, o) == Run(t, va + |s| * PAGE_SIZE, Run(s, va, o))
    decreases |s|
  {
    if |s| == 0 {
      assert s + t == t;
    } else {
      assert (s + t)[1..] == s[1..] + t;
      RunConcat(s[1..], t, va + PAGE_SIZE, Feed(s[0], va, o));
    }
  }

  lemma {:induction false} RunHoles(n: nat, va: nat, o: Sink)
    requires n > 0
    ensures Run(Holes(n), va, o) == Sink(o.stream, true)
  {
    assert Holes(n)[1..] == Holes(n - 1);
    if n > 1 { RunHoles(n - 1, va + PAGE_SIZE, Sink(o.stream, true)); }
  }

  lemma {:induction false} RunLeaves(data: Data, flags: nat, p: nat, n: nat, va: nat, o: Sink)
    requires n > 0
    ensures Run(Leaves(data, flags, p, n), va, o) ==
      Sink(o.stream + Header(va, flags, o.gap) + Contents(data, p, p + n), false)
    decreases n
  {
    var s := Leaves(data, flags, p, n);
    var o', rest := Feed(s[0], va, o), Contents(data, p + 1, p + n);
    assert s[1..] == Leaves(data, flags, p + 1, n - 1);
    if n > 1 { RunLeaves(data, flags, p + 1, n - 1, va + PAGE_SIZE, o'); }
    assert o'.stream + Header(va, flags, false) == o'.stream;
    assert n == 1 ==> rest == [] && o'.stream + rest == o'.stream;
    Assoc(o.stream + Header(va, flags, o.gap), data(p), rest);
  }

  lemma Assoc(a: seq<nat>, b: seq<nat>, c: seq<nat>)
    ensures a + b + c == a + (b + c)
  {
  }

  lemma FirstAddress(level: nat, va: nat)
    requires 0 < level < 3
    ensures Address(level, va, 0) == va
  {
  }

  lemma NextAddress(level: nat, va: nat, i: nat)
    requires level > 0
    ensures Address(level, va, i + 1) == Address(level, va, i) + Span(level - 1) * PAGE_SIZE
  {
    NextProduct(i, Span(level - 1));
  }

  lemma NextProduct(i: nat, n: nat)
    ensures (i + 1) * n * PAGE_SIZE == i * n * PAGE_SIZE + n * PAGE_SIZE
  {
    assert (i + 1) * n == i * n + n;
  }

  /** An entry's pages u and then those of the entries after it, which start at address b. */
  lemma RunOn(u: seq<Seen>, rest: seq<Seen>, a: nat, b: nat, o: Sink, o': Sink)
    requires b == a + |u| * PAGE_SIZE && Run(u, a, o) == o'
    ensures Run(u + rest, a, o) == Run(rest, b, o')
  {
    RunConcat(u, rest, a, o);
  }

  /** Main result: the walk feeds the sink what the list of pages says, one page after the other. */
  lemma {:induction false} WalkedRun(tables: Tables, data: Data, p: nat, level: nat, va: nat, i: nat, o: Sink)
    requires WellFormed(tables, p, level) && 0 < level <= 3 && i <= PageTable.ENTRIES
    ensures Walked(tables, data, p, level, va, i, o) == Run(Pages(tables, data, p, level, i), Address(level, va, i), o)
    decreases level, PageTable.ENTRIES - i
  {
    if i < PageTable.ENTRIES {
      var s, a := tables(p)[i], Address(level, va, i);
      var u, rest, o' := Under(tables, data, s, level), Pages(tables, data, p, level, i + 1),
        Entered(tables, data, s, level, a, o);
      EnteredRun(tables, data, s, level, a, o);
      UnderCount(tables, data, s, level);
      NextAddress(level, va, i);
      RunOn(u, rest, a, Address(level, va, i + 1), o, o');
      WalkedRun(tables, data, p, level, va, i + 1, o');
    }
  }

  lemma {:induction false} EnteredRun(tables: Tables, data: Data, s: Slot, level: nat, a: nat, o: Sink)
    requires 0 < level <= 3 && SlotOk(tables, s, level)
    ensures Run(Under(tables, data, s, level), a, o) == Entered(tables, data, s, level, a, o)
    decreases level, 0
  {
    match s
    case Empty => RunHoles(Span(level - 1), a, o);
    case Leaf(flags, page) => LeafRun(data, flags, page, level, a, o);
    case Table(page) =>
      if level == 1 {
        RunHoles(Span(level - 1), a, o);
      } else {
        WalkedRun(tables, data, page, level - 1, a, 0, o);
        FirstAddress(level - 1, a);
      }
  }

  /** A leaf is as many pages of contents as the program reads. */
  lemma LeafContents(data: Data, page: nat, level: nat)
    requires 0 < level <= 3
    ensures Contents(Read(data, level), page, page + Span(level - 1)) == LeafBytes(data, page, level)
  {
    if level == 1 {
      assert Contents(data, page + 1, page + 1) == [];
      assert Contents(data, page, page + 1) == data(page) + [] == data(page);
    } else if level == 2 {
      assert Span(level - 1) == PageTable.ENTRIES;
    } else {
      UnreadContents(data, page, page + Span(level - 1), level);
    }
  }

  lemma {:induction false} UnreadContents(data: Data, p: nat, q: nat, level: nat)
    requires level == 3
    ensures Contents(Read(data, level), p, q) == []
    decreases q - p
  {
    if p < q { UnreadContents(data, p + 1, q, level); }
  }

  lemma LeafRun(data: Data, flags: nat, page: nat, level: nat, a: nat, o: Sink)
    requires 0 < level <= 3
    ensures Run(Leaves(Read(data, level), flags, page, Span(level - 1)), a, o) ==
      Sink(o.stream + Header(a, flags, o.gap) + LeafBytes(data, page, level), false)
  {
    RunLeaves(Read(data, level), flags, page, Span(level - 1), a, o);
    LeafContents(data, page, level);
  }

  lemma SamePages(tables: Tables, data: Data, p: nat, tables': Tables, data': Data, p': nat, level: nat)
    requires level > 0 && WellFormed(tables, p, level) && WellFormed(tables', p', level)
    requires forall v: nat :: v < Span(level) ==>
      PageAt(tables, data, p, level, v) == PageAt(tables', data', p', level, v)
    ensures Pages(tables, data, p, level, 0) == Pages(tables', data', p', level, 0)
  {
    var s, s' := Pages(tables, data, p, level, 0), Pages(tables', data', p', level, 0);
    PagesCount(tables, data, p, level, 0);
    PagesCount(tables', data', p', level, 0);
    forall k: nat | k < Span(level) ensures s[k] == s'[k] {
      PageFound(tables, data, p, level, k);
      PageFound(tables', data', p', level, k);
    }
  }

  /** Main result: what the measurement sees, page by page, decides the stream. Where tables and pages lie, and which
      tables exist without mapping anything, does not matter. */
  lemma SameViewSameStream(tables: Tables, data: Data, p: nat, tables': Tables, data': Data, p': nat, level: nat,
                           o: Sink)
    requires level == 3 && WellFormed(tables, p, level) && WellFormed(tables', p', level)
    requires forall v: nat :: v < Span(level) ==>
      PageAt(tables, data, p, level, v) == PageAt(tables', data', p', level, v)
    ensures Walked(tables, data, p, level, 0, 0, o) == Walked(tables', data', p', level, 0, 0, o)
  {
    SamePages(tables, data, p, tables', data', p', level);
    WalkedRun(tables, data, p, level, 0, 0, o);
    WalkedRun(tables', data', p', level, 0, 0, o);
  }

  // ----- what a processor sees -----

  /** What a program sees of page k: as PageAt, but with the contents of top-level leaves. */
  ghost function SeenAt(tables: Tables, data: Data, p: nat, level: nat, k: nat): Seen
    requires WellFormed(tables, p, level) && level > 0 && k < Span(level)
  {
    SplitIndex(Span(level - 1), k);
    match tables(p)[k / Span(level - 1)]
    case Leaf(flags, page) => Mapped(flags, data(page + k % Span(level - 1)))
    case _ => PageAt(tables, data, p, level, k)
  }

  /** The same entries of two top-level tables are leaves. */
  ghost predicate SameGigapages(tables: Tables, p: nat, tables': Tables, p': nat) {
    && |tables(p)| == |tables'(p')|
    && forall i :: 0 <= i < |tables(p)| ==> (tables(p)[i].Leaf? <==> tables'(p')[i].Leaf?)
  }

  lemma MeasuredFromSeen(tables: Tables, data: Data, p: nat, tables': Tables, data': Data, p': nat, level: nat, v: nat)
    requires level == 3 && WellFormed(tables, p, level) && WellFormed(tables', p', level) && v < Span(level)
    requires SameGigapages(tables, p, tables', p')
    requires SeenAt(tables, data, p, level, v) == SeenAt(tables', data', p', level, v)
    ensures PageAt(tables, data, p, level, v) == PageAt(tables', data', p', level, v)
  {
    SplitIndex(Span(level - 1), v);
  }

  /** Main result: what a processor sees decides the stream as long as the same entries are top-level leaves, in
      particular if there are none. */
  lemma SameSeenSameStream(tables: Tables, data: Data, p: nat, tables': Tables, data': Data, p': nat, level: nat,
                           o: Sink)
    requires level == 3 && WellFormed(tables, p, level) && WellFormed(tables', p', level)
    requires SameGigapages(tables, p, tables', p')
    requires forall v: nat :: v < Span(level) ==>
      SeenAt(tables, data, p, level, v) == SeenAt(tables', data', p', level, v)
    ensures Walked(tables, data, p, level, 0, 0, o) == Walked(tables', data', p', level, 0, 0, o)
  {
    forall v: nat | v < Span(level) ensures PageAt(tables, data, p, level, v) == PageAt(tables', data', p', level, v) {
      MeasuredFromSeen(tables, data, p, tables', data', p', level, v);
    }
    SameViewSameStream(tables, data, p, tables', data', p', level, o);
  }

  // ----- the stream, run by run -----

  /** How many pages from the first on are mapped. */
  ghost function RunLength(s: seq<Seen>): (n: nat)
    ensures n <= |s| && (forall k :: 0 <= k < n ==> s[k].Mapped?) && (n < |s| ==> s[n].Hole?)
  {
    if |s| == 0 || s[0].Hole? then 0 else 1 + RunLength(s[1..])
  }

  ghost function AllBytes(s: seq<Seen>, n: nat): seq<nat>
    requires n <= |s| && forall k :: 0 <= k < n ==> s[k].Mapped?
    decreases n
  {
    if n == 0 then [] else s[0].bytes + AllBytes(s[1..], n - 1)
  }

  /** Each maximal run of mapped pages, lowest first: its address, its first page's flags, its contents. */
  ghost function Blocks(s: seq<Seen>, va: nat): seq<nat>
    decreases |s|
  {
    if |s| == 0 then []
    else if s[0].Hole? then Blocks(s[1..], va + PAGE_SIZE)
    else
      var n := RunLength(s);
      Bytes(va) + [s[0].flags] + AllBytes(s, n) + Blocks(s[n..], va + n * PAGE_SIZE)
  }

  /** Main result: the stream is the list of maximal runs. */
  lemma {:induction false} RunIsBlocks(s: seq<Seen>, va: nat, o: Sink)
    requires o.gap
    ensures Run(s, va, o).stream == o.stream + Blocks(s, va)
    decreases |s|, 1
  {
    if |s| == 0 {
    } else if s[0].Hole? {
      RunIsBlocks(s[1..], va + PAGE_SIZE, o);
    } else {
      RunRest(s, va, Sink(o.stream + (Bytes(va) + [s[0].flags]), false));
      var n := RunLength(s);
      assert Feed(s[0], va, o) == Feed(s[0], va, Sink(o.stream + (Bytes(va) + [s[0].flags]), false)) by {
        assert o.stream + (Bytes(va) + [s[0].flags]) + [] + s[0].bytes ==
          o.stream + (Bytes(va) + [s[0].flags]) + s[0].bytes;
      }
      assert o.stream + (Bytes(va) + [s[0].flags]) + AllBytes(s, n) + Blocks(s[n..], va + n * PAGE_SIZE)
        == o.stream + (Bytes(va) + [s[0].flags] + AllBytes(s, n) + Blocks(s[n..], va + n * PAGE_SIZE));
    }
  }

  /** Inside a run: the rest of the run, then the runs after it. */
  lemma {:induction false} RunRest(s: seq<Seen>, va: nat, o: Sink)
    requires !o.gap
    ensures Run(s, va, o).stream ==
      o.stream + AllBytes(s, RunLength(s)) + Blocks(s[RunLength(s)..], va + RunLength(s) * PAGE_SIZE)
    decreases |s|, 0
  {
    var n := RunLength(s);
    if |s| == 0 {
    } else if n == 0 {
      assert s[0..] == s;
      RunIsBlocks(s[1..], va + PAGE_SIZE, Sink(o.stream, true));
    } else {
      var o' := Feed(s[0], va, o);
      assert o'.stream == o.stream + s[0].bytes by { assert o.stream + [] == o.stream; }
      RunRest(s[1..], va + PAGE_SIZE, o');
      assert s[1..][n - 1..] == s[n..];
      assert va + PAGE_SIZE + (n - 1) * PAGE_SIZE == va + n * PAGE_SIZE;
      assert o.stream + s[0].bytes + AllBytes(s[1..], n - 1) == o.stream + (s[0].bytes + AllBytes(s[1..], n - 1));
    }
  }

  /** The number in bytes from the lowest on. */
  ghost function LowFirst(b: seq<nat>, n: nat): nat
    requires n <= |b|
  {
    if n == 0 then 0 else LowFirst(b, n - 1) + b[n - 1] * Pow(256, n - 1)
  }

  lemma {:induction false} BytesRead(x: nat, n: nat)
    requires n <= 8
    ensures Pow(256, n) > 0 && LowFirst(Bytes(x), n) == x % Pow(256, n)
  {
    PowPos(256, n);
    if n == 0 {
      assert Pow(256, 0) == 1;
    } else {
      BytesRead(x, n - 1);
      var p := Pow(256, n - 1);
      assert Pow(256, n) == 256 * p && Bytes(x)[n - 1] == x / p % 256;
      MoreBytes(x, p);
    }
  }

  lemma MoreBytes(x: nat, p: nat)
    requires p > 0
    ensures x % (256 * p) == x % p + x / p % 256 * p
  {
    DivMod(x, p);
    Rejoin(x, p, x / p / 256, x / p % 256, x % p);
  }

  lemma Rejoin(x: nat, p: nat, h: nat, l: nat, r: nat)
    requires r < p && l < 256 && x == (256 * h + l) * p + r
    ensures x % (256 * p) == r + l * p
  {
    assert (256 * h + l) * p == h * (256 * p) + l * p;
    MulMono(p, l, 255);
    DivModUnique(x, 256 * p, h, r + l * p);
  }

  lemma {:induction false} BlocksAfter(s: seq<Seen>, va: nat, k: nat)
    requires k <= |s| && forall i :: 0 <= i < k ==> s[i].Hole?
    ensures Blocks(s, va) == Blocks(s[k..], va + k * PAGE_SIZE)
    decreases k
  {
    if k == 0 {
      assert s[0..] == s;
    } else {
      BlocksAfter(s[1..], va + PAGE_SIZE, k - 1);
      assert s[1..][k - 1..] == s[k..];
      assert va + PAGE_SIZE + (k - 1) * PAGE_SIZE == va + k * PAGE_SIZE;
    }
  }

  /** Main result, in bytes: what is fed first is the address of the first mapped page k as eight bytes, the lowest
      first, then its flags, then its contents. */
  lemma StreamStarts(s: seq<Seen>, va: nat, k: nat, o: Sink, w: seq<nat>)
    requires o.gap && k < |s| && s[k].Mapped? && forall i :: 0 <= i < k ==> s[i].Hole?
    requires |o.stream| <= |Run(s, va, o).stream| && w == Run(s, va, o).stream[|o.stream|..]
    ensures Pow(256, 8) > 0 && |w| >= 9 + |s[k].bytes|
    ensures LowFirst(w, 8) == (va + k * PAGE_SIZE) % Pow(256, 8)
    ensures w[8] == s[k].flags && w[9..9 + |s[k].bytes|] == s[k].bytes
  {
    var a := va + k * PAGE_SIZE;
    RunIsBlocks(s, va, o);
    BlocksAfter(s, va, k);
    BytesRead(a, 8);
    var t := s[k..];
    var n := RunLength(t);
    var rest := AllBytes(t[1..], n - 1) + Blocks(t[n..], a + n * PAGE_SIZE);
    assert w == Blocks(t, a);
    assert w == Bytes(a) + [s[k].flags] + s[k].bytes + rest;
    SameLow(Bytes(a), w, 8);
  }

  lemma {:induction false} SameLow(b: seq<nat>, w: seq<nat>, n: nat)
    requires n <= |b| <= |w| && b == w[..|b|]
    ensures LowFirst(b, n) == LowFirst(w, n)
  {
    if n > 0 { SameLow(b, w, n - 1); }
  }

  /** Two views that differ at most in the flags of pages inside a run. */
  ghost predicate SameButInner(s: seq<Seen>, t: seq<Seen>, gap: bool) {
    && |s| == |t|
    && (forall k :: 0 <= k < |s| ==> (s[k].Hole? <==> t[k].Hole?))
    && (forall k :: 0 <= k < |s| && s[k].Mapped? && t[k].Mapped? ==> s[k].bytes == t[k].bytes)
    && (gap && |s| > 0 && s[0].Mapped? && t[0].Mapped? ==> s[0].flags == t[0].flags)
    && (forall k :: 0 < k < |s| && StartsRun(s, k) && t[k].Mapped? ==> s[k].flags == t[k].flags)
  }

  ghost predicate StartsRun(s: seq<Seen>, k: nat) {
    0 < k < |s| && s[k].Mapped? && s[k - 1].Hole?
  }

  lemma FeedSame(x: Seen, y: Seen, va: nat, o: Sink)
    requires x.Hole? <==> y.Hole?
    requires x.Mapped? && y.Mapped? ==> x.bytes == y.bytes && (o.gap ==> x.flags == y.flags)
    ensures Feed(x, va, o) == Feed(y, va, o)
  {
  }

  lemma InnerTail(s: seq<Seen>, t: seq<Seen>, gap: bool)
    requires SameButInner(s, t, gap) && |s| > 0
    ensures SameButInner(s[1..], t[1..], s[0].Hole?)
  {
    var s1, t1 := s[1..], t[1..];
    if |s1| > 0 && s[0].Hole? && s1[0].Mapped? { assert StartsRun(s, 1); }
    forall k | 0 < k < |s1| && StartsRun(s1, k) && t1[k].Mapped? ensures s1[k].flags == t1[k].flags {
      assert StartsRun(s, k + 1);
    }
  }

  /** Flags count only at the start of a run. */
  lemma {:induction false} InnerFlagsUnhashed(s: seq<Seen>, t: seq<Seen>, va: nat, o: Sink)
    requires SameButInner(s, t, o.gap)
    ensures Run(s, va, o) == Run(t, va, o)
    decreases |s|
  {
    if |s| > 0 {
      var o' := Feed(s[0], va, o);
      FeedSame(s[0], t[0], va, o);
      InnerTail(s, t, o.gap);
      InnerFlagsUnhashed(s[1..], t[1..], va + PAGE_SIZE, o');
    }
  }

  // ----- the table the signing tool builds -----

  /** What the tool's own reading of its table, as a page map, makes visible. */
  ghost function SeenThrough(data: Data, t: Option<(nat, nat)>): Seen {
    match t
    case None => Hole
    case Some(e) => if e.1 / 2 % 2 == 1 || e.1 / 8 % 2 == 1 then Mapped(e.1 % 256, data(e.0)) else Hole
  }

  lemma TablePointer(q: nat)
    ensures Decode(PageTable.Entry(q, 0)) == Table(q)
  {
    PageTable.EntryRoundTrip(q, 0);
    DivModUnique(q * 1024 + 1, 2, q * 512, 1);
    DivModUnique(q * 512, 2, q * 256, 0);
    DivModUnique(q * 1024 + 1, 8, q * 128, 1);
    DivModUnique(q * 128, 2, q * 64, 0);
  }

  /** The low bits of an entry are the low bits of its flags. */
  lemma LowBit(e: nat)
    ensures e / 2 % 2 == e % 1024 / 2 % 2
  {
    var f := e % 1024;
    DivModUnique(e / 2, 2, e / 1024 * 256 + f / 4, f / 2 % 2);
  }

  lemma HighBit(e: nat)
    ensures e / 8 % 2 == e % 1024 / 8 % 2
  {
    var f := e % 1024;
    DivModUnique(e / 8, 2, e / 1024 * 64 + f / 16, f / 8 % 2);
  }

  lemma LowByte(e: nat)
    ensures e % 256 == e % 1024 % 256
  {
    var f := e % 1024;
    DivModUnique(e, 256, e / 1024 * 4 + f / 256, f % 256);
  }

  /** A last-level entry shows its page exactly when the tool's map does. */
  lemma LastEntry(tables: Tables, data: Data, e: nat, level: nat)
    requires level == 1
    ensures SlotAt(tables, data, Decode(e), level, 0) == SeenThrough(data, PageTable.EntryView(e))
  {
    LowBit(e);
    HighBit(e);
    LowByte(e);
  }

  /** The tool's tree of tables is well formed for the measurement. */
  lemma {:induction false} TreeWellFormed(mem: PageTable.Memory, root: nat, owner: map<nat, seq<nat>>, p: nat,
                                          level: nat)
    requires PageTable.IsTree(mem, root, owner) && p in owner && |owner[p]| + level == 3 && level > 0
    ensures p in mem && |mem[p]| == PageTable.ENTRIES && WellFormed(Decoded(mem), p, level)
    ensures level > 1 ==> NoGigapages(Decoded(mem), p)
    decreases level
  {
    assert PageTable.TableOk(mem, owner, p);
    var tables := Decoded(mem);
    assert |tables(p)| == PageTable.ENTRIES;
    forall i | 0 <= i < PageTable.ENTRIES ensures SlotOk(tables, tables(p)[i], level)
      && (level > 1 ==> !tables(p)[i].Leaf?) {
      assert tables(p)[i] == Decode(mem[p][i]);
      if level > 1 && PageTable.IsValid(mem[p][i]) {
        assert PageTable.PointsTo(mem, owner, p, i);
        var q := PageTable.PageOf(mem[p][i]);
        TablePointer(q);
        TreeWellFormed(mem, root, owner, q, level - 1);
      }
    }
  }

  /** One level of the walk, in the tool's terms. */
  lemma LevelView(mem: PageTable.Memory, data: Data, root: nat, owner: map<nat, seq<nat>>, p: nat, level: nat, k: nat)
    requires PageTable.IsTree(mem, root, owner) && p in owner && |owner[p]| + level == 3 && level > 1
    requires k < Span(level) && WellFormed(Decoded(mem), p, level)
    ensures k / Span(level - 1) < PageTable.ENTRIES && p in mem && |mem[p]| == PageTable.ENTRIES
    ensures k % Span(level - 1) < Span(level - 1)
    ensures !PageTable.IsValid(mem[p][k / Span(level - 1)]) ==> PageAt(Decoded(mem), data, p, level, k) == Hole
    ensures PageTable.IsValid(mem[p][k / Span(level - 1)]) ==>
      var q := PageTable.PageOf(mem[p][k / Span(level - 1)]);
      && q in owner && |owner[q]| + (level - 1) == 3 && WellFormed(Decoded(mem), q, level - 1)
      && PageAt(Decoded(mem), data, p, level, k) == PageAt(Decoded(mem), data, q, level - 1, k % Span(level - 1))
  {
    SplitIndex(Span(level - 1), k);
    assert PageTable.TableOk(mem, owner, p);
    var i := k / Span(level - 1);
    assert Decoded(mem)(p)[i] == Decode(mem[p][i]);
    if PageTable.IsValid(mem[p][i]) {
      assert PageTable.PointsTo(mem, owner, p, i);
      TablePointer(PageTable.PageOf(mem[p][i]));
      TreeWellFormed(mem, root, owner, PageTable.PageOf(mem[p][i]), level - 1);
    }
  }

  lemma LastView(mem: PageTable.Memory, data: Data, p: nat, level: nat, k: nat)
    requires level == 1 && k < PageTable.ENTRIES && p in mem && |mem[p]| == PageTable.ENTRIES
    requires WellFormed(Decoded(mem), p, level)
    ensures k < Span(level)
    ensures PageAt(Decoded(mem), data, p, level, k) == SeenThrough(data, PageTable.EntryView(mem[p][k]))
  {
    assert Span(level - 1) == 1;
    LastEntry(Decoded(mem), data, mem[p][k], level);
  }

  lemma Indices(v: nat)
    requires v < PageTable.PAGES
    ensures v / 262144 == PageTable.Index(v, 0) && v % 262144 / 512 == PageTable.Index(v, 1)
    ensures v % 262144 % 512 == PageTable.Index(v, 2)
  {
    var r := v % 262144;
    DivModUnique(v, 512, v / 262144 * 512 + r / 512, r % 512);
    DivModUnique(v / 512, 512, v / 262144, r / 512);
  }

  lemma Spans(level: nat)
    requires level == 3
    ensures Span(level - 2) == 512 && Span(level - 1) == 262144 && Span(level) == PageTable.PAGES
  {
    assert Span(level - 3) == 1;
  }

  lemma FollowTwo(mem: PageTable.Memory, p: nat, a: nat, b: nat)
    requires p in mem && a < |mem[p]|
    ensures !PageTable.IsValid(mem[p][a]) ==> PageTable.Follow(mem, p, [a, b]) == None
    ensures PageTable.IsValid(mem[p][a]) ==>
      var q := PageTable.PageOf(mem[p][a]);
      PageTable.Follow(mem, p, [a, b]) ==
        if q in mem && b < |mem[q]| && PageTable.IsValid(mem[q][b]) then Some(PageTable.PageOf(mem[q][b])) else None
  {
    assert [a, b][1..] == [b] && [b][1..] == [];
    if PageTable.IsValid(mem[p][a]) {
      var q := PageTable.PageOf(mem[p][a]);
      assert PageTable.Follow(mem, p, [a, b]) == PageTable.Follow(mem, q, [b]);
      if q in mem && b < |mem[q]| && PageTable.IsValid(mem[q][b]) {
        assert PageTable.Follow(mem, q, [b]) == PageTable.Follow(mem, PageTable.PageOf(mem[q][b]), []);
      }
    }
  }

  /** Main result: the measurement sees of the table exactly what the tool's page map says. */
  lemma MeasuredIsMapped(mem: PageTable.Memory, data: Data, root: nat, owner: map<nat, seq<nat>>, v: nat, level: nat)
    requires PageTable.Tree(mem, root, owner) && v < PageTable.PAGES && level == 3
    ensures WellFormed(Decoded(mem), root, level) && NoGigapages(Decoded(mem), root) && v < Span(level)
    ensures PageAt(Decoded(mem), data, root, level, v) == SeenThrough(data, PageTable.Translate(mem, root, v))
  {
    assert PageTable.IsTree(mem, root, owner);
    TreeWellFormed(mem, root, owner, root, level);
    Spans(level);
    Indices(v);
    LevelView(mem, data, root, owner, root, level, v);
    var i0, i1 := PageTable.Index(v, 0), PageTable.Index(v, 1);
    FollowTwo(mem, root, i0, i1);
    if PageTable.IsValid(mem[root][i0]) {
      var q := PageTable.PageOf(mem[root][i0]);
      LevelView(mem, data, root, owner, q, level - 1, v % 262144);
      if PageTable.IsValid(mem[q][i1]) {
        var t := PageTable.PageOf(mem[q][i1]);
        assert PageTable.TableOk(mem, owner, t);
        LastView(mem, data, t, level - 2, PageTable.Index(v, 2));
      }
    }
  }

  /** Main result: two tables of the tool that show the same pages, with the same flags and contents, are measured
      alike, wherever their tables and pages lie. */
  lemma SameMapSameStream(mem: PageTable.Memory, data: Data, root: nat, owner: map<nat, seq<nat>>,
                          mem': PageTable.Memory, data': Data, root': nat, owner': map<nat, seq<nat>>, level: nat,
                          o: Sink)
    requires level == 3 && PageTable.Tree(mem, root, owner) && PageTable.Tree(mem', root', owner')
    requires forall v: nat :: v < PageTable.PAGES ==>
      SeenThrough(data, PageTable.Translate(mem, root, v)) == SeenThrough(data', PageTable.Translate(mem', root', v))
    ensures WellFormed(Decoded(mem), root, level) && WellFormed(Decoded(mem'), root', level)
    ensures Walked(Decoded(mem), data, root, level, 0, 0, o) == Walked(Decoded(mem'), data', root', level, 0, 0, o)
  {
    MeasuredIsMapped(mem, data, root, owner, 0, level);
    MeasuredIsMapped(mem', data', root', owner', 0, level);
    Spans(level);
    forall v: nat | v < Span(level)
      ensures PageAt(Decoded(mem), data, root, level, v) == PageAt(Decoded(mem'), data', root', level, v)
    {
      MeasuredIsMapped(mem, data, root, owner, v, level);
      MeasuredIsMapped(mem', data', root', owner', v, level);
    }
    SameViewSameStream(Decoded(mem), data, root, Decoded(mem'), data', root', level, o);
  }

  /** The same of two runs of the tool: the maps their calls describe decide the measurement. */
  lemma SameCallsSameStream(e: PageTable.EnclaveMem, m: map<nat, (nat, nat)>, data: Data,
                            e': PageTable.EnclaveMem, m': map<nat, (nat, nat)>, data': Data, level: nat, o: Sink)
    requires level == 3 && e.Valid() && e'.Valid() && e.Shows(m) && e'.Shows(m')
    requires forall v: nat :: v < PageTable.PAGES ==>
      SeenThrough(data, PageTable.Look(m, v)) == SeenThrough(data', PageTable.Look(m', v))
    ensures WellFormed(Decoded(e.mem), e.root, level) && WellFormed(Decoded(e'.mem), e'.root, level)
    ensures Walked(Decoded(e.mem), data, e.root, level, 0, 0, o) ==
      Walked(Decoded(e'.mem), data', e'.root, level, 0, 0, o)
  {
    forall v: nat | v < PageTable.PAGES
      ensures SeenThrough(data, PageTable.Translate(e.mem, e.root, v)) ==
        SeenThrough(data', PageTable.Translate(e'.mem, e'.root, v))
    {
      assert e.View(v) == PageTable.Look(m, v) && e'.View(v) == PageTable.Look(m', v);
    }
    SameMapSameStream(e.mem, data, e.root, e.owner, e'.mem, data', e'.root, e'.owner, level, o);
  }
}
