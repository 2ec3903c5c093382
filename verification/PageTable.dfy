/** The three-level page table the signing tool builds: sign_tool/penglai-enclave-page.c. Addresses are page aligned
    and written as page numbers; a page of the region holds 512 entries. */
module PageTable {
  import opened Arith
  import opened BitOps
  import opened Collections

  const ENTRIES: nat := 512

  /** Page number of a virtual address, of which the walk reads 27 bits. */
  const PAGES: nat := 512 * 512 * 512

  type Memory = map<nat, seq<nat>>

  /** ptd_create: a page number above ten flag bits, the lowest of which says the entry is valid. */
  function Entry(page: nat, flags: nat): nat {
    page * 1024 + (flags - flags % 2 + 1)
  }

  predicate IsValid(e: nat) {
    e % 2 == 1
  }

  function PageOf(e: nat): nat {
    e / 1024
  }

  function FlagsOf(e: nat): nat {
    e % 1024
  }

  lemma EntryRoundTrip(page: nat, flags: nat)
    requires flags < 1024
    ensures IsValid(Entry(page, flags)) && PageOf(Entry(page, flags)) == page
    ensures FlagsOf(Entry(page, flags)) == flags - flags % 2 + 1
  {
    var f := flags - flags % 2 + 1;
    DivModUnique(Entry(page, flags), 1024, page, f);
    DivModUnique(Entry(page, flags), 2, page * 512 + flags / 2, 1);
  }

  /** The entry bit by bit: V, the flags above V, and the page number from bit 10 on. */
  lemma EntryBits(page: nat, flags: nat, k: nat)
    requires flags < 1024
    ensures Bit(Entry(page, flags), k) <==> k == 0 || (if k < 10 then Bit(flags, k) else Bit(page, k - 10))
  {
    var f := flags - flags % 2 + 1;
    assert Pow(2, 10) == 1024;
    JoinBit(f, page, 10, k);
    assert f / 2 == flags / 2;
  }

  /** get_pt_index: the nine bits of a page number that select an entry at a level. */
  function Index(v: nat, level: nat): (i: nat)
    requires level < 3
    ensures i < ENTRIES
  {
    if level == 0 then v / 262144 % 512 else if level == 1 then v / 512 % 512 else v % 512
  }

  /** The tables a walk for v goes through, as indices from the root. */
  function Path(v: nat): (p: seq<nat>)
    ensures |p| == 2
  {
    [Index(v, 0), Index(v, 1)]
  }

  lemma Digits(v: nat)
    requires v < PAGES
    ensures v == Index(v, 0) * 262144 + Index(v, 1) * 512 + Index(v, 2)
  {
    var a, b := v / 512, v % 512;
    DivModUnique(v, 262144, a / 512, a % 512 * 512 + b);
    assert a / 512 < 512;
  }

  /** Different pages differ in some index. */
  lemma IndicesTell(v: nat, w: nat)
    requires v < PAGES && w < PAGES && Path(v) == Path(w) && Index(v, 2) == Index(w, 2)
    ensures v == w
  {
    assert Path(v)[0] == Path(w)[0] && Path(v)[1] == Path(w)[1];
    Digits(v);
    Digits(w);
  }

  /** The table that a sequence of indices leads to. */
  function Follow(mem: Memory, p: nat, path: seq<nat>): Option<nat>
    decreases |path|
  {
    if |path| == 0 then Some(p)
    else if p in mem && path[0] < |mem[p]| && IsValid(mem[p][path[0]])
    then Follow(mem, PageOf(mem[p][path[0]]), path[1..])
    else None
  }

  /** What the table says of page v: the page behind it and its flags. */
  function Translate(mem: Memory, root: nat, v: nat): Option<(nat, nat)> {
    match Follow(mem, root, Path(v))
    case None => None
    case Some(t) =>
      if t in mem && Index(v, 2) < |mem[t]| && IsValid(mem[t][Index(v, 2)])
      then Some((PageOf(mem[t][Index(v, 2)]), FlagsOf(mem[t][Index(v, 2)])))
      else None
  }

  // ----- the tree of tables -----

  /** A table page holds 512 entries; a valid entry above the last level points to a table one step further. */
  ghost predicate TableOk(mem: Memory, owner: map<nat, seq<nat>>, p: nat) {
    p in owner ==>
      && p in mem && |mem[p]| == ENTRIES && |owner[p]| <= 2
      && (|owner[p]| < 2 ==> forall i :: 0 <= i < ENTRIES && IsValid(mem[p][i]) ==> PointsTo(mem, owner, p, i))
  }

  ghost predicate PointsTo(mem: Memory, owner: map<nat, seq<nat>>, p: nat, i: nat) {
    && p in owner && p in mem && i < |mem[p]| && mem[p][i] == Entry(PageOf(mem[p][i]), 0)
    && PageOf(mem[p][i]) in owner && owner[PageOf(mem[p][i])] == owner[p] + [i]
  }

  /** A table other than the root is the one its parent points to. */
  ghost predicate ParentOk(mem: Memory, owner: map<nat, seq<nat>>, q: nat) {
    q in owner && |owner[q]| > 0 ==>
      exists p: nat :: IsParent(mem, owner, p, q)
  }

  ghost predicate IsParent(mem: Memory, owner: map<nat, seq<nat>>, p: nat, q: nat) {
    && p in owner && q in owner && |owner[q]| > 0 && owner[q] == owner[p] + [owner[q][|owner[q]| - 1]]
    && p in mem && owner[q][|owner[q]| - 1] < |mem[p]|
    && mem[p][owner[q][|owner[q]| - 1]] == Entry(q, 0)
  }

  /** owner gives each table page its one place in the tree. */
  ghost predicate IsTree(mem: Memory, root: nat, owner: map<nat, seq<nat>>) {
    && root in owner && owner[root] == []
    && (forall p: nat :: TableOk(mem, owner, p))
    && (forall q: nat :: ParentOk(mem, owner, q))
    && (forall p: nat, q: nat :: p in owner && q in owner && owner[p] == owner[q] ==> p == q)
  }

  /** The tree behind a bound variable, so that only proofs that name it see inside. */
  ghost predicate Tree(mem: Memory, root: nat, owner: map<nat, seq<nat>>) {
    forall r: nat :: r == root ==> IsTree(mem, r, owner)
  }

  /** Every table above an owned one is owned. */
  lemma {:induction false} AncestorOwned(mem: Memory, root: nat, owner: map<nat, seq<nat>>, q: nat, n: nat)
      returns (a: nat)
    requires IsTree(mem, root, owner) && q in owner && n <= |owner[q]|
    ensures a in owner && owner[a] == owner[q][..n]
    decreases |owner[q]|
  {
    if n == |owner[q]| {
      a := q;
    } else {
      assert ParentOk(mem, owner, q);
      var p: nat :| IsParent(mem, owner, p, q);
      a := AncestorOwned(mem, root, owner, p, n);
      assert owner[p][..n] == owner[q][..n];
    }
  }

  /** An entry that leads nowhere has no table below it. */
  lemma NothingBelow(mem: Memory, root: nat, owner: map<nat, seq<nat>>, p: nat, i: nat, q: nat)
    requires IsTree(mem, root, owner) && p in owner && |owner[p]| < 2 && i < ENTRIES && p in mem && |mem[p]| == ENTRIES
    requires !IsValid(mem[p][i]) && q in owner
    ensures !(owner[p] + [i] <= owner[q])
  {
    if owner[p] + [i] <= owner[q] {
      var n := |owner[p]| + 1;
      var a := AncestorOwned(mem, root, owner, q, n);
      assert owner[a] == owner[p] + [i];
      assert ParentOk(mem, owner, a);
      var p': nat :| IsParent(mem, owner, p', a);
      assert owner[p'] == owner[a][..|owner[a]| - 1] == owner[p];
      EntryRoundTrip(a, 0);
      assert false;
    }
  }

  /** A walk reaches exactly the table that owns the path. */
  lemma {:induction false} FollowOwner(mem: Memory, root: nat, owner: map<nat, seq<nat>>, p: nat, path: seq<nat>,
                                       q: nat)
    requires IsTree(mem, root, owner) && p in owner && |owner[p]| + |path| <= 2
    requires forall k :: 0 <= k < |path| ==> path[k] < ENTRIES
    ensures Follow(mem, p, path) == Some(q) <==> q in owner && owner[q] == owner[p] + path
    decreases |path|
  {
    assert TableOk(mem, owner, p);
    if |path| == 0 {
      assert owner[p] + path == owner[p];
    } else {
      var i := path[0];
      if IsValid(mem[p][i]) {
        assert PointsTo(mem, owner, p, i);
        var c := PageOf(mem[p][i]);
        FollowOwner(mem, root, owner, c, path[1..], q);
        assert owner[c] + path[1..] == owner[p] + path;
      } else {
        if q in owner { NothingBelow(mem, root, owner, p, i, q); }
        assert owner[p] + [i] <= owner[p] + path;
      }
    }
  }

  /** Translation in terms of the tree: the last-level table of v, if there is one, and its entry. */
  lemma TranslateOwner(mem: Memory, root: nat, owner: map<nat, seq<nat>>, v: nat, t: nat)
    requires IsTree(mem, root, owner) && t in owner && owner[t] == Path(v)
    ensures t in mem && |mem[t]| == ENTRIES
    ensures Translate(mem, root, v) == EntryView(mem[t][Index(v, 2)])
  {
    assert TableOk(mem, owner, t);
    assert owner[root] + Path(v) == Path(v);
    FollowOwner(mem, root, owner, root, Path(v), t);
  }

  lemma TranslateNone(mem: Memory, root: nat, owner: map<nat, seq<nat>>, v: nat)
    requires IsTree(mem, root, owner) && forall t: nat :: t in owner ==> owner[t] != Path(v)
    ensures Translate(mem, root, v) == None
  {
    assert owner[root] + Path(v) == Path(v);
    match Follow(mem, root, Path(v))
    case None =>
    case Some(t) => FollowOwner(mem, root, owner, root, Path(v), t);
  }

  function EntryView(e: nat): Option<(nat, nat)> {
    if IsValid(e) then Some((PageOf(e), FlagsOf(e))) else None
  }

  ghost predicate IsBlank(mem: Memory, q: nat) {
    q in mem && |mem[q]| == ENTRIES && forall k :: 0 <= k < ENTRIES ==> !IsValid(mem[q][k])
  }

  /** An entry of p that leads nowhere now leads to the blank page q. */
  ghost predicate CanAdd(mem: Memory, owner: map<nat, seq<nat>>, p: nat, i: nat, q: nat) {
    && p in owner && p in mem && |mem[p]| == ENTRIES && |owner[p]| < 2 && i < ENTRIES && !IsValid(mem[p][i])
    && q !in owner && IsBlank(mem, q)
  }

  function WithEntry(mem: Memory, p: nat, i: nat, e: nat): Memory
    requires p in mem && i < |mem[p]|
  {
    var page: seq<nat> := mem[p][i := e];
    mem[p := page]
  }

  lemma AddTableOk(mem: Memory, root: nat, owner: map<nat, seq<nat>>, p: nat, i: nat, q: nat, x: nat)
    requires IsTree(mem, root, owner) && CanAdd(mem, owner, p, i, q)
    ensures TableOk(WithEntry(mem, p, i, Entry(q, 0)), owner[q := owner[p] + [i]], x)
  {
    var mem', owner' := WithEntry(mem, p, i, Entry(q, 0)), owner[q := owner[p] + [i]];
    EntryRoundTrip(q, 0);
    assert TableOk(mem, owner, x);
    if x in owner && |owner[x]| < 2 {
      forall k | 0 <= k < ENTRIES && IsValid(mem'[x][k]) ensures PointsTo(mem', owner', x, k) {
        if !(x == p && k == i) { assert PointsTo(mem, owner, x, k); }
      }
    }
  }

  lemma AddParentOk(mem: Memory, root: nat, owner: map<nat, seq<nat>>, p: nat, i: nat, q: nat, x: nat)
    requires IsTree(mem, root, owner) && CanAdd(mem, owner, p, i, q)
    ensures ParentOk(WithEntry(mem, p, i, Entry(q, 0)), owner[q := owner[p] + [i]], x)
  {
    var mem', owner' := WithEntry(mem, p, i, Entry(q, 0)), owner[q := owner[p] + [i]];
    if x == q {
      assert IsParent(mem', owner', p, q);
    } else if x in owner && |owner[x]| > 0 {
      assert ParentOk(mem, owner, x);
      var y: nat :| IsParent(mem, owner, y, x);
      EntryRoundTrip(x, 0);
      assert IsParent(mem', owner', y, x);
    }
  }

  lemma AddTree(mem: Memory, root: nat, owner: map<nat, seq<nat>>, p: nat, i: nat, q: nat)
    requires IsTree(mem, root, owner) && CanAdd(mem, owner, p, i, q)
    ensures IsTree(WithEntry(mem, p, i, Entry(q, 0)), root, owner[q := owner[p] + [i]])
  {
    var mem', owner' := WithEntry(mem, p, i, Entry(q, 0)), owner[q := owner[p] + [i]];
    forall x: nat ensures TableOk(mem', owner', x) { AddTableOk(mem, root, owner, p, i, q, x); }
    forall x: nat ensures ParentOk(mem', owner', x) { AddParentOk(mem, root, owner, p, i, q, x); }
    forall x: nat | x in owner ensures owner[x] != owner[p] + [i] { NothingBelow(mem, root, owner, p, i, x); }
  }

  /** A new table changes no translation. */
  lemma AddSame(mem: Memory, root: nat, owner: map<nat, seq<nat>>, p: nat, i: nat, q: nat, v: nat)
    requires IsTree(mem, root, owner) && CanAdd(mem, owner, p, i, q)
    ensures Translate(WithEntry(mem, p, i, Entry(q, 0)), root, v) == Translate(mem, root, v)
  {
    var mem', owner' := WithEntry(mem, p, i, Entry(q, 0)), owner[q := owner[p] + [i]];
    AddTree(mem, root, owner, p, i, q);
    if t: nat :| t in owner && owner[t] == Path(v) {
      assert t != p;
      TranslateOwner(mem, root, owner, v, t);
      TranslateOwner(mem', root, owner', v, t);
    } else {
      TranslateNone(mem, root, owner, v);
      if owner'[q] == Path(v) {
        TranslateOwner(mem', root, owner', v, q);
      } else {
        TranslateNone(mem', root, owner', v);
      }
    }
  }

  lemma LeafTree(mem: Memory, root: nat, owner: map<nat, seq<nat>>, t: nat, i: nat, e: nat)
    requires IsTree(mem, root, owner) && t in owner && |owner[t]| == 2 && t in mem && |mem[t]| == ENTRIES && i < ENTRIES
    ensures IsTree(WithEntry(mem, t, i, e), root, owner)
  {
    var mem' := WithEntry(mem, t, i, e);
    forall x: nat ensures TableOk(mem', owner, x) {
      assert TableOk(mem, owner, x);
      if x in owner && |owner[x]| < 2 {
        forall k | 0 <= k < ENTRIES && IsValid(mem'[x][k]) ensures PointsTo(mem', owner, x, k) {
          assert PointsTo(mem, owner, x, k);
        }
      }
    }
    forall x: nat ensures ParentOk(mem', owner, x) {
      assert ParentOk(mem, owner, x) && TableOk(mem, owner, x);
      if x in owner && |owner[x]| > 0 {
        var y: nat :| IsParent(mem, owner, y, x);
        assert IsParent(mem', owner, y, x);
      }
    }
  }

  /** A last-level entry decides one page's translation and no other. */
  lemma LeafChanges(mem: Memory, root: nat, owner: map<nat, seq<nat>>, v: nat, t: nat, e: nat, w: nat)
    requires IsTree(mem, root, owner) && t in owner && owner[t] == Path(v) && t in mem && |mem[t]| == ENTRIES
    requires v < PAGES && w < PAGES
    ensures Translate(WithEntry(mem, t, Index(v, 2), e), root, w) ==
      if w == v then EntryView(e) else Translate(mem, root, w)
  {
    var mem' := WithEntry(mem, t, Index(v, 2), e);
    LeafTree(mem, root, owner, t, Index(v, 2), e);
    if u: nat :| u in owner && owner[u] == Path(w) {
      TranslateOwner(mem, root, owner, w, u);
      TranslateOwner(mem', root, owner, w, u);
      if u == t && w != v && Index(w, 2) == Index(v, 2) {
        IndicesTell(v, w);
      }
    } else {
      TranslateNone(mem, root, owner, w);
      TranslateNone(mem', root, owner, w);
    }
  }

  /** Main result on sharing: no two entries above the last level lead to the same table, and none to the root. */
  lemma Unshared(mem: Memory, root: nat, owner: map<nat, seq<nat>>, p: nat, i: nat, q: nat, j: nat)
    requires Tree(mem, root, owner) && p in owner && q in owner && |owner[p]| < 2 && |owner[q]| < 2
    requires p in mem && q in mem && i < |mem[p]| && j < |mem[q]| && IsValid(mem[p][i]) && IsValid(mem[q][j])
    ensures PageOf(mem[p][i]) == PageOf(mem[q][j]) ==> p == q && i == j
    ensures PageOf(mem[p][i]) != root
  {
    assert IsTree(mem, root, owner);
    assert TableOk(mem, owner, p) && TableOk(mem, owner, q);
    assert PointsTo(mem, owner, p, i) && PointsTo(mem, owner, q, j);
    if PageOf(mem[p][i]) == PageOf(mem[q][j]) {
      assert (owner[p] + [i])[|owner[p]|] == i && (owner[q] + [j])[|owner[q]|] == j;
      assert owner[p] == (owner[p] + [i])[..|owner[p]|] && owner[q] == (owner[q] + [j])[..|owner[q]|];
    }
  }

  // ----- how many tables a walk has to create -----

  ghost function Missing(mem: Memory, root: nat, v: nat): nat {
    if Follow(mem, root, Path(v)[..1]).None? then 2 else if Follow(mem, root, Path(v)).None? then 1 else 0
  }

  /** At table p on the way to v: without a valid entry everything further is missing. */
  lemma MissingFrom(mem: Memory, root: nat, owner: map<nat, seq<nat>>, v: nat, p: nat)
    requires IsTree(mem, root, owner) && p in owner && |owner[p]| < 2 && owner[p] == Path(v)[..|owner[p]|]
    ensures p in mem && |mem[p]| == ENTRIES
    ensures !IsValid(mem[p][Path(v)[|owner[p]|]]) ==> Missing(mem, root, v) == 2 - |owner[p]|
  {
    assert TableOk(mem, owner, p);
    var i := Path(v)[|owner[p]|];
    if !IsValid(mem[p][i]) {
      NoTable(mem, root, owner, p, i, Path(v));
      NoTable(mem, root, owner, p, i, Path(v)[..1]);
      assert owner[root] + owner[p] == owner[p];
      FollowOwner(mem, root, owner, root, owner[p], p);
    }
  }

  lemma NoTable(mem: Memory, root: nat, owner: map<nat, seq<nat>>, p: nat, i: nat, path: seq<nat>)
    requires IsTree(mem, root, owner) && p in owner && |owner[p]| < 2 && i < ENTRIES && p in mem && |mem[p]| == ENTRIES
    requires !IsValid(mem[p][i]) && |path| <= 2 && forall k :: 0 <= k < |path| ==> path[k] < ENTRIES
    ensures owner[p] + [i] <= path ==> Follow(mem, root, path) == None
  {
    assert owner[root] + path == path;
    if owner[p] + [i] <= path {
      match Follow(mem, root, path)
      case None =>
      case Some(t) =>
        FollowOwner(mem, root, owner, root, path, t);
        NothingBelow(mem, root, owner, p, i, t);
        assert false;
    }
  }

  /** With the last-level table in place nothing is missing, and the other way round. */
  lemma MissingNone(mem: Memory, root: nat, owner: map<nat, seq<nat>>, v: nat)
    requires IsTree(mem, root, owner)
    ensures Missing(mem, root, v) == 0 <==> exists t: nat :: t in owner && owner[t] == Path(v)
  {
    assert owner[root] + Path(v) == Path(v);
    if t: nat :| t in owner && owner[t] == Path(v) {
      FollowOwner(mem, root, owner, root, Path(v), t);
      var a := AncestorOwned(mem, root, owner, t, 1);
      assert owner[root] + Path(v)[..1] == Path(v)[..1];
      FollowOwner(mem, root, owner, root, Path(v)[..1], a);
    } else {
      match Follow(mem, root, Path(v))
      case None =>
      case Some(t) => FollowOwner(mem, root, owner, root, Path(v), t);
    }
  }

  /** Adding the next table leaves one less to add. */
  lemma MissingAdd(mem: Memory, root: nat, owner: map<nat, seq<nat>>, v: nat, p: nat, q: nat)
    requires IsTree(mem, root, owner) && p in owner && |owner[p]| < 2 && owner[p] == Path(v)[..|owner[p]|]
    requires CanAdd(mem, owner, p, Path(v)[|owner[p]|], q)
    ensures Missing(WithEntry(mem, p, Path(v)[|owner[p]|], Entry(q, 0)), root, v) + 1 == Missing(mem, root, v)
  {
    var i := Path(v)[|owner[p]|];
    var mem', owner' := WithEntry(mem, p, i, Entry(q, 0)), owner[q := owner[p] + [i]];
    AddTree(mem, root, owner, p, i, q);
    MissingFrom(mem, root, owner, v, p);
    assert owner'[q] == Path(v)[..|owner'[q]|];
    if |owner[p]| == 0 {
      MissingFrom(mem', root, owner', v, q);
    } else {
      assert owner'[q] == Path(v);
      MissingNone(mem', root, owner', v);
    }
  }

  // ----- the enclave's memory -----

  /** Each page of the region is free, a table or handed out, and only one of these; free pages are blank. */
  ghost predicate Accounts(mem: Memory, free: seq<nat>, owner: map<nat, seq<nat>>, handed: set<nat>, region: set<nat>) {
    && Distinct(free) && (forall k :: 0 <= k < |free| ==> free[k] > 0 && IsBlank(mem, free[k]))
    && (forall p: nat :: p in region <==> p in free || p in owner || p in handed)
    && (forall p: nat :: p in free ==> p !in owner && p !in handed)
    && (forall p: nat :: p in owner ==> p !in handed)
  }

  /** Accounts behind a bound variable. */
  ghost predicate Ledger(mem: Memory, free: seq<nat>, owner: map<nat, seq<nat>>, handed: set<nat>, region: set<nat>) {
    forall r: set<nat> :: r == region ==> Accounts(mem, free, owner, handed, r)
  }

  lemma TakeFree(mem: Memory, free: seq<nat>, owner: map<nat, seq<nat>>, handed: set<nat>, region: set<nat>)
    requires Ledger(mem, free, owner, handed, region) && |free| > 0
    ensures Ledger(mem, free[1..], owner, handed + {free[0]}, region)
    ensures free[0] > 0 && IsBlank(mem, free[0]) && free[0] !in owner && free[0] !in handed && free[0] !in free[1..]
  {
    assert Accounts(mem, free, owner, handed, region);
    assert forall p: nat :: p in free <==> p == free[0] || p in free[1..];
  }

  /** A page handed out becomes a table. */
  lemma MakeTable(mem: Memory, free: seq<nat>, owner: map<nat, seq<nat>>, handed: set<nat>, region: set<nat>,
                  p: nat, i: nat, q: nat)
    requires Ledger(mem, free, owner, handed, region) && CanAdd(mem, owner, p, i, q) && q in handed
    ensures Ledger(WithEntry(mem, p, i, Entry(q, 0)), free, owner[q := owner[p] + [i]], handed - {q}, region)
  {
    assert Accounts(mem, free, owner, handed, region);
  }

  lemma WriteTable(mem: Memory, free: seq<nat>, owner: map<nat, seq<nat>>, handed: set<nat>, region: set<nat>,
                   t: nat, i: nat, e: nat)
    requires Ledger(mem, free, owner, handed, region) && t in owner && t in mem && i < |mem[t]|
    ensures Ledger(WithEntry(mem, t, i, e), free, owner, handed, region)
  {
    assert Accounts(mem, free, owner, handed, region);
  }

  /** A valid entry on the way to v leads one table further. */
  lemma StepDown(mem: Memory, root: nat, owner: map<nat, seq<nat>>, v: nat, p: nat)
    requires Tree(mem, root, owner) && p in owner && |owner[p]| < 2 && owner[p] == Path(v)[..|owner[p]|]
    requires p in mem && |mem[p]| == ENTRIES && IsValid(mem[p][Path(v)[|owner[p]|]])
    ensures var c := PageOf(mem[p][Path(v)[|owner[p]|]]);
      c in owner && owner[c] == Path(v)[..|owner[p]| + 1] && c in mem && |mem[c]| == ENTRIES
  {
    assert IsTree(mem, root, owner);
    assert TableOk(mem, owner, p);
    assert PointsTo(mem, owner, p, Path(v)[|owner[p]|]);
    assert TableOk(mem, owner, PageOf(mem[p][Path(v)[|owner[p]|]]));
  }

  lemma TableSize(mem: Memory, root: nat, owner: map<nat, seq<nat>>, p: nat)
    requires Tree(mem, root, owner) && p in owner
    ensures p in mem && |mem[p]| == ENTRIES
  {
    assert IsTree(mem, root, owner);
    assert TableOk(mem, owner, p);
  }

  lemma PathIndex(v: nat, i: nat)
    requires i < 2
    ensures Path(v)[i] == Index(v, i)
  {
  }

  lemma RootTable(mem: Memory, root: nat, owner: map<nat, seq<nat>>)
    requires Tree(mem, root, owner)
    ensures root in owner && owner[root] == [] && root in mem && |mem[root]| == ENTRIES
  {
    assert IsTree(mem, root, owner);
    assert TableOk(mem, owner, root);
  }

  lemma AllThere(mem: Memory, root: nat, owner: map<nat, seq<nat>>, v: nat, t: nat)
    requires Tree(mem, root, owner) && t in owner && owner[t] == Path(v)
    ensures Missing(mem, root, v) == 0
  {
    assert IsTree(mem, root, owner);
    MissingNone(mem, root, owner, v);
  }

  lemma NotThere(mem: Memory, root: nat, owner: map<nat, seq<nat>>, v: nat, p: nat)
    requires Tree(mem, root, owner) && p in owner && |owner[p]| < 2 && owner[p] == Path(v)[..|owner[p]|]
    requires p in mem && |mem[p]| == ENTRIES && !IsValid(mem[p][Path(v)[|owner[p]|]])
    ensures Missing(mem, root, v) != 0 && Translate(mem, root, v) == None
  {
    assert IsTree(mem, root, owner);
    MissingFrom(mem, root, owner, v, p);
    NoTable(mem, root, owner, p, Path(v)[|owner[p]|], Path(v));
    assert owner[p] + [Path(v)[|owner[p]|]] <= Path(v);
  }

  /** init_free_mem: count pages from base on, in order. */
  method FreeList(base: nat, count: nat) returns (free: seq<nat>)
    ensures |free| == count && forall k :: 0 <= k < count ==> free[k] == base + k
  {
    free := [];
    var cur := base;
    for i := 0 to count
      invariant cur == base + i && |free| == i && forall k :: 0 <= k < i ==> free[k] == base + k
    {
      free := free + [cur];
      cur := cur + 1;
    }
  }

  ghost function Pages(base: nat, count: nat): (s: set<nat>)
    ensures forall p: nat :: p in s <==> base <= p < base + count
  {
    if count == 0 then {} else Pages(base, count - 1) + {base + count - 1}
  }

  /** A blank root alone is a tree that translates nothing. */
  lemma StartTree(mem: Memory, root: nat)
    requires IsBlank(mem, root)
    ensures Tree(mem, root, map[root := []]) && forall v: nat :: Translate(mem, root, v) == None
  {
    var owner: map<nat, seq<nat>> := map[root := []];
    forall p: nat ensures TableOk(mem, owner, p) { }
    assert IsTree(mem, root, owner);
    forall v: nat ensures Translate(mem, root, v) == None { TranslateNone(mem, root, owner, v); }
  }

  lemma StartLedger(mem: Memory, base: nat, count: nat, free: seq<nat>)
    requires base > 0 && count >= 1 && |free| == count && forall k :: 0 <= k < count ==> free[k] == base + k
    requires forall p: nat :: base <= p < base + count ==> IsBlank(mem, p)
    ensures count == 1 ==> Ledger(mem, [], map[base := []], {}, Pages(base, count))
    ensures count > 1 ==> Ledger(mem, free[2..], map[base := []], {base + 1}, Pages(base, count))
  {
    var owner: map<nat, seq<nat>> := map[base := []];
    if count > 1 {
      forall p: nat | base + 2 <= p < base + count ensures p in free[2..] { assert free[2..][p - base - 2] == p; }
      assert Accounts(mem, free[2..], owner, {base + 1}, Pages(base, count));
    } else {
      assert Accounts(mem, [], owner, {}, Pages(base, count));
    }
  }

  /** What was given out and what is free are the pages of the region, each once, in this order. */
  ghost predicate Supplied(given: seq<nat>, free: seq<nat>, supply: seq<nat>, region: set<nat>) {
    given + free == supply && Distinct(supply) && forall p: nat :: p in region <==> p in supply
  }

  /** Supplied behind a bound variable. */
  ghost predicate Supply(given: seq<nat>, free: seq<nat>, supply: seq<nat>, region: set<nat>) {
    forall r: set<nat> :: r == region ==> Supplied(given, free, supply, r)
  }

  lemma SupplyNext(given: seq<nat>, free: seq<nat>, supply: seq<nat>, region: set<nat>)
    requires Supply(given, free, supply, region) && |free| > 0
    ensures Supply(given + [free[0]], free[1..], supply, region)
  {
    assert Supplied(given, free, supply, region);
    assert given + [free[0]] + free[1..] == given + free;
  }

  lemma StartSupply(base: nat, count: nat, list: seq<nat>, k: nat)
    requires |list| == count && k <= count && forall i :: 0 <= i < count ==> list[i] == base + i
    ensures Supply(list[..k], list[k..], list, Pages(base, count))
  {
    assert list[..k] + list[k..] == list;
    forall p: nat ensures p in Pages(base, count) <==> p in list {
      if base <= p < base + count { assert list[p - base] == p; }
    }
    assert Supplied(list[..k], list[k..], list, Pages(base, count));
  }

  /** Main result: no page was given out twice, and each that was given out is a table or handed out for data, not
      both. */
  lemma GivenOnce(mem: Memory, given: seq<nat>, free: seq<nat>, supply: seq<nat>, owner: map<nat, seq<nat>>,
                  handed: set<nat>, region: set<nat>)
    requires Ledger(mem, free, owner, handed, region) && Supply(given, free, supply, region)
    ensures Distinct(given)
    ensures forall p: nat :: p in given <==> p in owner || p in handed
    ensures forall p: nat :: p in owner ==> p !in handed
    ensures forall p: nat :: p in given ==> p !in free
  {
    assert Accounts(mem, free, owner, handed, region) && Supplied(given, free, supply, region);
    forall i, j | 0 <= i < j < |given| ensures given[i] != given[j] {
      assert supply[i] == given[i] && supply[j] == given[j];
    }
    GivenNotFree(given, free, supply, region);
    forall p: nat ensures p in supply <==> p in given || p in free { InEither(given, free, p); }
  }

  lemma InEither(given: seq<nat>, free: seq<nat>, p: nat)
    ensures p in given + free <==> p in given || p in free
  {
  }

  lemma GivenNotFree(given: seq<nat>, free: seq<nat>, supply: seq<nat>, region: set<nat>)
    requires Supplied(given, free, supply, region)
    ensures forall p: nat :: p in given ==> p !in free
  {
    forall i, j | 0 <= i < |given| && 0 <= j < |free| ensures given[i] != free[j] {
      assert supply[i] == given[i] && supply[|given| + j] == free[j];
    }
  }

  /** The end of the end of a list. */
  lemma TailOfTail(s: seq<nat>, t: seq<nat>, u: seq<nat>)
    requires |u| <= |t| <= |s| && t == s[|s| - |t|..] && u == t[|t| - |u|..]
    ensures u == s[|s| - |u|..]
  {
  }

  /** A call of map_va2pa, enclave_alloc_page or clear_enclave_pt. */
  datatype Call = MapCall(v: nat, page: nat, flags: nat) | AllocCall(v: nat, flags: nat) | ClearCall(v: nat)

  ghost predicate CallOk(c: Call) {
    c.v < PAGES && (c.ClearCall? || c.flags < 1024)
  }

  ghost function Look(m: map<nat, (nat, nat)>, w: nat): Option<(nat, nat)> {
    if w in m then Some(m[w]) else None
  }

  /** What a call does to a map from pages to pages and flags, page being the one it used. */
  ghost function Applied(m: map<nat, (nat, nat)>, c: Call, page: nat): map<nat, (nat, nat)> {
    if c.ClearCall? then m - {c.v} else m[c.v := (page, c.flags - c.flags % 2 + 1)]
  }

  /** The first calls, as many as pages are given. */
  ghost function Played(m: map<nat, (nat, nat)>, calls: seq<Call>, used: seq<nat>): map<nat, (nat, nat)>
    requires |used| <= |calls|
  {
    if |used| == 0 then m
    else Applied(Played(m, calls, used[..|used| - 1]), calls[|used| - 1], used[|used| - 1])
  }

  lemma PlayedNext(m: map<nat, (nat, nat)>, calls: seq<Call>, used: seq<nat>, page: nat)
    requires |used| < |calls|
    ensures Played(m, calls, used + [page]) == Applied(Played(m, calls, used), calls[|used|], page)
  {
    assert (used + [page])[..|used|] == used;
  }

  /** Calls that name a page used it. */
  ghost predicate AsNamed(calls: seq<Call>, used: seq<nat>)
    requires |used| <= |calls|
  {
    forall k :: 0 <= k < |used| ==> (calls[k].MapCall? ==> used[k] == calls[k].page)
  }

  /** The page an alloc call took from the free list, if there was one. */
  function TakenBy(c: Call, page: nat): seq<nat> {
    if c.AllocCall? && page != 0 then [page] else []
  }

  /** The pages that the first calls took for data, in order. */
  ghost function Taken(calls: seq<Call>, used: seq<nat>): seq<nat>
    requires |used| <= |calls|
  {
    if |used| == 0 then []
    else Taken(calls, used[..|used| - 1]) + TakenBy(calls[|used| - 1], used[|used| - 1])
  }

  lemma TakenNext(calls: seq<Call>, used: seq<nat>, page: nat)
    requires |used| < |calls|
    ensures Taken(calls, used + [page]) == Taken(calls, used) + TakenBy(calls[|used|], page)
  {
    assert (used + [page])[..|used|] == used;
  }

  /** The pages taken for data: those of the calls served, and that of the call that ran out of pages. */
  ghost predicate Collected(calls: seq<Call>, used: seq<nat>, got: seq<nat>, last: nat)
    requires |used| <= |calls|
  {
    got == Taken(calls, used) + if |used| < |calls| then TakenBy(calls[|used|], last) else []
  }

  /** An alloc call goes without a page only once there are none left. */
  ghost predicate NoneLeft(calls: seq<Call>, used: seq<nat>, free: seq<nat>)
    requires |used| <= |calls|
  {
    forall k :: 0 <= k < |used| && calls[k].AllocCall? && used[k] == 0 ==> free == []
  }

  lemma GotMore(got: seq<nat>, more: seq<nat>, before: seq<nat>)
    requires Distinct(got) && |more| <= 1
    requires (forall p: nat :: p in got ==> p in before) && (forall p: nat :: p in more ==> p !in before)
    ensures Distinct(got + more) && forall p: nat :: p in got + more <==> p in got || p in more
  {
    forall i, j | 0 <= i < j < |got + more| ensures (got + more)[i] != (got + more)[j] {
      if j >= |got| { assert got[i] in got && more[0] in more; }
    }
    forall p: nat ensures p in got + more <==> p in got || p in more { InEither(got, more, p); }
  }

  class EnclaveMem {
    var mem: Memory
    var free: seq<nat>
    var root: nat
    ghost var owner: map<nat, seq<nat>>
    ghost var handed: set<nat>
    ghost var given: seq<nat>
    ghost const region: set<nat>
    ghost const supply: seq<nat>

    ghost predicate Valid()
      reads this
    {
      && Tree(mem, root, owner) && Ledger(mem, free, owner, handed, region)
      && Supply(given, free, supply, region)
    }

    /** Pages are given out one after the other, and tables and data pages stay what they are. */
    ghost predicate Grown(given0: seq<nat>, owner0: map<nat, seq<nat>>, handed0: set<nat>)
      reads this
    {
      && given0 <= given && handed0 <= handed
      && (forall x: nat :: x in owner0 ==> x in owner && owner[x] == owner0[x])
    }

    /** enclave_mem_int: the first page of the region is the root table and the second is set aside. */
    constructor (memory: Memory, base: nat, count: nat)
      requires base > 0 && count >= 1 && forall p: nat :: base <= p < base + count ==> IsBlank(memory, p)
      ensures Valid() && mem == memory && root == base && region == Pages(base, count)
      ensures |free| == (if count > 1 then count - 2 else 0) && handed == (if count > 1 then {base + 1} else {})
      ensures |supply| == count && forall k :: 0 <= k < count ==> supply[k] == base + k
      ensures forall v: nat :: View(v) == None
    {
      var list := FreeList(base, count);
      StartTree(memory, base);
      StartLedger(memory, base, count, list);
      StartSupply(base, count, list, if count > 1 then 2 else 1);
      mem := memory;
      root := list[0];
      free := if count > 1 then list[2..] else [];
      owner := map[base := []];
      handed := if count > 1 then {base + 1} else {};
      region := Pages(base, count);
      given := list[..if count > 1 then 2 else 1];
      supply := list;
    }

    /** The page-to-page map the table stands for. */
    ghost function View(v: nat): Option<(nat, nat)>
      reads this
    {
      Translate(mem, root, v)
    }

    /** The next free page; 0 when there is none. */
    method GetFreeMem() returns (p: nat)
      requires Valid()
      modifies this`free, this`handed, this`given
      ensures Valid() && Grown(old(given), old(owner), old(handed))
      ensures |old(free)| == 0 ==> p == 0 && free == old(free) && handed == old(handed) && given == old(given)
      ensures |old(free)| > 0 ==> p == old(free)[0] && free == old(free)[1..] && handed == old(handed) + {p}
      ensures |old(free)| > 0 ==> given == old(given) + [p] && p !in old(given)
      ensures |old(free)| > 0 ==> p > 0 && IsBlank(mem, p) && p !in owner && p !in old(handed)
    {
      if |free| == 0 { return 0; }
      TakeFree(mem, free, owner, handed, region);
      SupplyNext(given, free, supply, region);
      GivenOnce(mem, given, free, supply, owner, handed, region);
      p := free[0];
      given := given + [p];
      free := free[1..];
      handed := handed + {p};
    }

    /** create_ptd_page: hang a new table on entry i of table p; false when no page is free. */
    method CreateTable(p: nat, i: nat, ghost v: nat) returns (ok: bool)
      requires Valid() && OnPath(p, v) && i == Path(v)[|owner[p]|] && !IsValid(mem[p][i])
      modifies this`mem, this`free, this`owner, this`handed, this`given
      ensures Valid() && SameView(old(mem)) && SameData(old(mem)) && handed == old(handed)
      ensures ok == (|old(free)| > 0)
      ensures !ok ==> mem == old(mem) && free == old(free) && owner == old(owner)
      ensures ok ==> free == old(free)[1..] && Missing(mem, root, v) + 1 == Missing(old(mem), root, v)
      ensures ok ==> p in mem && i < |mem[p]| && IsValid(mem[p][i])
      ensures Grown(old(given), old(owner), old(handed))
    {
      var q := GetFreeMem();
      if q == 0 { return false; }
      assert IsTree(mem, root, owner);
      AddTree(mem, root, owner, p, i, q);
      MissingAdd(mem, root, owner, v, p, q);
      forall w: nat ensures Translate(WithEntry(mem, p, i, Entry(q, 0)), root, w) == Translate(mem, root, w) {
        AddSame(mem, root, owner, p, i, q, w);
      }
      MakeTable(mem, free, owner, handed, region, p, i, q);
      EntryRoundTrip(q, 0);
      mem := WithEntry(mem, p, i, Entry(q, 0));
      owner := owner[q := owner[p] + [i]];
      handed := handed - {q};
      ok := true;
    }

    /** Table p is on the way to page v, above the last level. */
    ghost predicate OnPath(p: nat, v: nat)
      reads this
    {
      p in owner && |owner[p]| < 2 && owner[p] == Path(v)[..|owner[p]|] && p in mem && |mem[p]| == ENTRIES
    }

    ghost predicate SameView(mem0: Memory)
      reads this
    {
      forall v: nat :: Translate(mem, root, v) == Translate(mem0, root, v)
    }

    /** Pages that are not tables keep their contents. */
    ghost predicate SameData(mem0: Memory)
      reads this
    {
      mem.Keys == mem0.Keys && forall p :: p in mem0 && p !in owner ==> mem[p] == mem0[p]
    }

    /** Entry i of table p: created when missing, then followed. */
    method WalkLevel(v: nat, p: nat, i: nat) returns (ok: bool, c: nat)
      requires Valid() && OnPath(p, v) && |owner[p]| == i
      modifies this`mem, this`free, this`owner, this`handed, this`given
      ensures Valid() && SameView(old(mem)) && SameData(old(mem)) && handed == old(handed)
      ensures |free| <= |old(free)| && free == old(free)[|old(free)| - |free|..]
      ensures Missing(mem, root, v) + (|old(free)| - |free|) == Missing(old(mem), root, v)
      ensures !ok ==> |free| == 0 && Missing(mem, root, v) > 0
      ensures ok ==> c in owner && owner[c] == Path(v)[..i + 1] && c in mem && |mem[c]| == ENTRIES
      ensures Grown(old(given), old(owner), old(handed))
    {
      var index := Index(v, i);
      PathIndex(v, i);
      ok := true;
      if !IsValid(mem[p][index]) {
        NotThere(mem, root, owner, v, p);
        ok := CreateTable(p, index, v);
        if !ok { return false, 0; }
      }
      TableSize(mem, root, owner, p);
      StepDown(mem, root, owner, v, p);
      c := PageOf(mem[p][index]);
    }

    /** walk_enclave_pt with create: the last-level table of page v; false when the free pages do not suffice. */
    method Walk(v: nat) returns (ok: bool, t: nat)
      requires Valid()
      modifies this`mem, this`free, this`owner, this`handed, this`given
      ensures Valid() && SameView(old(mem)) && SameData(old(mem)) && handed == old(handed)
      ensures ok <==> |old(free)| >= Missing(old(mem), root, v)
      ensures |free| <= |old(free)| && free == old(free)[|old(free)| - |free|..]
      ensures if ok then free == old(free)[Missing(old(mem), root, v)..] else free == [] && Missing(mem, root, v) > 0
      ensures Grown(old(given), old(owner), old(handed))
      ensures ok ==> t in owner && owner[t] == Path(v) && t in mem && |mem[t]| == ENTRIES
    {
      var i := 0;
      t := root;
      RootTable(mem, root, owner);
      while i < 2
        invariant 0 <= i <= 2 && Valid() && SameView(old(mem)) && SameData(old(mem)) && handed == old(handed)
        invariant t in owner && owner[t] == Path(v)[..i] && t in mem && |mem[t]| == ENTRIES
        invariant |free| <= |old(free)| && free == old(free)[|old(free)| - |free|..]
        invariant Grown(old(given), old(owner), old(handed))
        invariant Missing(mem, root, v) + (|old(free)| - |free|) == Missing(old(mem), root, v)
      {
        ok, t := WalkLevel(v, t, i);
        if !ok { return; }
        i := i + 1;
      }
      assert owner[t] == Path(v);
      AllThere(mem, root, owner, v, t);
      ok := true;
    }

    /** Write entry e for page v. */
    method SetEntry(v: nat, t: nat, e: nat)
      requires Valid() && v < PAGES && t in owner && owner[t] == Path(v) && t in mem && |mem[t]| == ENTRIES
      modifies this`mem
      ensures Valid() && SameData(old(mem))
      ensures forall w: nat :: w < PAGES ==> View(w) == if w == v then EntryView(e) else old(View(w))
    {
      assert IsTree(mem, root, owner);
      LeafTree(mem, root, owner, t, Index(v, 2), e);
      WriteTable(mem, free, owner, handed, region, t, Index(v, 2), e);
      forall w: nat | w < PAGES
        ensures Translate(WithEntry(mem, t, Index(v, 2), e), root, w) ==
          if w == v then EntryView(e) else Translate(mem, root, w)
      {
        LeafChanges(mem, root, owner, v, t, e, w);
      }
      mem := WithEntry(mem, t, Index(v, 2), e);
    }

    /** map_va2pa: page v now stands for the given page with the given flags; no other page changes. Without the free
        pages for the missing tables nothing is mapped. */
    method MapPage(v: nat, page: nat, flags: nat) returns (ok: bool)
      requires Valid() && v < PAGES && flags < 1024
      modifies this`mem, this`free, this`owner, this`handed, this`given
      ensures Valid() && SameData(old(mem)) && handed == old(handed) && Grown(old(given), old(owner), old(handed))
      ensures |free| <= |old(free)| && free == old(free)[|old(free)| - |free|..]
      ensures (ok <==> |old(free)| >= Missing(old(mem), root, v)) && (!ok ==> free == [] && Missing(mem, root, v) > 0)
      ensures ok ==> View(v) == Some((page, flags - flags % 2 + 1))
      ensures forall w: nat :: w < PAGES && (w != v || !ok) ==> View(w) == old(View(w))
    {
      ghost var mem0 := mem;
      var t;
      ok, t := Walk(v);
      if !ok { return; }
      ghost var mem1 := mem;
      EntryRoundTrip(page, flags);
      SetEntry(v, t, Entry(page, flags));
      assert forall w: nat :: w < PAGES ==> Translate(mem1, root, w) == Translate(mem0, root, w);
    }

    /** enclave_alloc_page: as MapPage, with the first free page; page zero when there is none. */
    method AllocPage(v: nat, flags: nat) returns (ok: bool, page: nat)
      requires Valid() && v < PAGES && flags < 1024
      modifies this`mem, this`free, this`owner, this`handed, this`given
      ensures Valid() && SameData(old(mem)) && Grown(old(given), old(owner), old(handed))
      ensures |free| <= |old(free)| && free == old(free)[|old(free)| - |free|..]
      ensures ok <==> |old(free)| - 1 >= Missing(old(mem), root, v) || Missing(old(mem), root, v) == 0
      ensures !ok ==> free == [] && Missing(mem, root, v) > 0
      ensures ok ==> View(v) == Some((page, flags - flags % 2 + 1))
      ensures forall w: nat :: w < PAGES && (w != v || !ok) ==> View(w) == old(View(w))
      ensures |old(free)| > 0 ==>
        page == old(free)[0] && page > 0 && page !in old(given) && handed == old(handed) + {page}
      ensures |old(free)| == 0 ==> page == 0 && handed == old(handed)
    {
      ghost var free0 := free;
      page := GetFreeMem();
      ghost var free1 := free;
      ok := MapPage(v, page, flags);
      TailOfTail(free0, free1, free);
    }

    /** clear_enclave_pt: page v stands for nothing; false when it has no last-level table. */
    method ClearPage(v: nat) returns (found: bool)
      requires Valid() && v < PAGES
      modifies this`mem
      ensures Valid() && SameData(old(mem))
      ensures found <==> Missing(old(mem), root, v) == 0
      ensures forall w: nat :: w < PAGES ==> View(w) == if w == v then None else old(View(w))
    {
      var i := 0;
      var t := root;
      RootTable(mem, root, owner);
      while i < 2
        invariant 0 <= i <= 2 && t in owner && owner[t] == Path(v)[..i] && t in mem && |mem[t]| == ENTRIES
        invariant mem == old(mem)
      {
        PathIndex(v, i);
        if !IsValid(mem[t][Index(v, i)]) {
          NotThere(mem, root, owner, v, t);
          return false;
        }
        StepDown(mem, root, owner, v, t);
        t := PageOf(mem[t][Index(v, i)]);
        i := i + 1;
      }
      assert owner[t] == Path(v);
      AllThere(mem, root, owner, v, t);
      SetEntry(v, t, 0);
      found := true;
    }

    /** The table stands for the map m. */
    ghost predicate Shows(m: map<nat, (nat, nat)>)
      reads this
    {
      forall w: nat :: w < PAGES ==> View(w) == Look(m, w)
    }

    /** Pages taken for data since given0 was all that was given. */
    ghost predicate Fresh(got: seq<nat>, given0: seq<nat>)
      reads this
    {
      Distinct(got) && forall p: nat :: p in got ==> p !in given0 && p in handed && p in given
    }

    /** A call that lacks a table, with no page left for it. */
    ghost predicate Stuck(c: Call)
      reads this
    {
      !c.ClearCall? && free == [] && Missing(mem, root, c.v) > 0
    }

    /** One call; got is the data page it took from the free list, if any. */
    method Serve(c: Call, ghost m: map<nat, (nat, nat)>) returns (ok: bool, page: nat, got: seq<nat>)
      requires Valid() && CallOk(c) && Shows(m)
      modifies this`mem, this`free, this`owner, this`handed, this`given
      ensures Valid() && Grown(old(given), old(owner), old(handed)) && SameData(old(mem))
      ensures Shows(if ok then Applied(m, c, page) else m) && (c.MapCall? ==> page == c.page) && (!ok ==> Stuck(c))
      ensures got == TakenBy(c, page) && forall p: nat :: p in got ==> p !in old(given) && p in handed
      ensures (old(free) == [] ==> free == []) && (c.AllocCall? && page == 0 ==> free == [])
    {
      match c {
        case MapCall(v, q, flags) =>
          page := q;
          ok := MapPage(v, q, flags);
        case AllocCall(v, flags) =>
          ok, page := AllocPage(v, flags);
        case ClearCall(v) =>
          var _ := ClearPage(v);
          ok, page := true, 0;
      }
      got := TakenBy(c, page);
    }

    /** Main result, over any sequence of calls up to the first that runs out of pages: the table stands for what the
        calls say, with the pages they name and the pages they took; pages taken for data were never given out before,
        are all different, and none is a table. */
    method ServeAll(calls: seq<Call>, ghost m: map<nat, (nat, nat)>)
        returns (used: seq<nat>, got: seq<nat>, last: nat)
      requires Valid() && Shows(m) && forall c :: c in calls ==> CallOk(c)
      modifies this`mem, this`free, this`owner, this`handed, this`given
      ensures Valid() && Grown(old(given), old(owner), old(handed)) && Distinct(given)
      ensures |used| <= |calls| && Shows(Played(m, calls, used)) && (|used| < |calls| ==> Stuck(calls[|used|]))
      ensures AsNamed(calls, used) && Collected(calls, used, got, last) && NoneLeft(calls, used, free)
      ensures Distinct(got) && forall p: nat :: p in got ==> p !in old(given) && p in handed && p !in owner
    {
      used, got, last := [], [], 0;
      while |used| < |calls|
        invariant |used| <= |calls| && Valid() && Grown(old(given), old(owner), old(handed))
        invariant Shows(Played(m, calls, used)) && Fresh(got, old(given))
        invariant AsNamed(calls, used) && got == Taken(calls, used) && NoneLeft(calls, used, free)
      {
        ghost var before := given;
        var ok, page, more := Serve(calls[|used|], Played(m, calls, used));
        GotMore(got, more, before);
        GivenOnce(mem, given, free, supply, owner, handed, region);
        got := got + more;
        if !ok {
          last := page;
          return;
        }
        PlayedNext(m, calls, used, page);
        TakenNext(calls, used, page);
        used := used + [page];
      }
      GivenOnce(mem, given, free, supply, owner, handed, region);
    }
  }
}
