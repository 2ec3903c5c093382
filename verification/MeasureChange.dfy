/** What the measurement of an enclave tells apart: two views that differ in one page. */
module MeasureChange {
  import opened Measure

  /** What a list of pages adds to the stream does not depend on what was hashed before. */
  lemma {:induction false} RunAdds(s: seq<Seen>, va: nat, o: Sink)
    ensures Run(s, va, o).stream == o.stream + Run(s, va, Sink([], o.gap)).stream
    decreases |s|
  {
    var none: seq<nat> := [];
    if |s| > 0 {
      var f, g := Feed(s[0], va, o), Feed(s[0], va, Sink(none, o.gap));
      assert f.stream == o.stream + g.stream && f.gap == g.gap;
      RunAdds(s[1..], va + PAGE_SIZE, f);
      RunAdds(s[1..], va + PAGE_SIZE, g);
    }
  }

  /** The bytes that a list of pages adds. */
  ghost function Adds(s: seq<Seen>, va: nat, gap: bool): seq<nat> {
    Run(s, va, Sink([], gap)).stream
  }

  /** A gap before the list adds a header or nothing. */
  lemma GapAdds(s: seq<Seen>, va: nat)
    ensures |Adds(s, va, false)| <= |Adds(s, va, true)| <= |Adds(s, va, false)| + 9
  {
    if |s| > 0 {
      RunAdds(s[1..], va + PAGE_SIZE, Feed(s[0], va, Sink([], false)));
      RunAdds(s[1..], va + PAGE_SIZE, Feed(s[0], va, Sink([], true)));
    }
  }

  lemma {:induction false} GapAfter(s: seq<Seen>, va: nat, o: Sink)
    ensures Run(s, va, o).gap == if |s| == 0 then o.gap else s[|s| - 1].Hole?
    decreases |s|
  {
    if |s| > 0 { GapAfter(s[1..], va + PAGE_SIZE, Feed(s[0], va, o)); }
  }

  /** The stream around page k: what comes before it, its own bytes, and what comes after it. */
  lemma AroundPage(s: seq<Seen>, va: nat, o: Sink, k: nat)
    requires k < |s|
    ensures var before := Run(s[..k], va, o);
      var here := Feed(s[k], va + k * PAGE_SIZE, Sink([], before.gap));
      Run(s, va, o).stream == before.stream + here.stream + Adds(s[k + 1..], va + k * PAGE_SIZE + PAGE_SIZE, here.gap)
  {
    var a, before := va + k * PAGE_SIZE, Run(s[..k], va, o);
    var here := Feed(s[k], a, Sink([], before.gap));
    assert s == s[..k] + s[k..];
    RunConcat(s[..k], s[k..], va, o);
    var f := Feed(s[k], a, before);
    assert s[k..][1..] == s[k + 1..];
    assert f.stream == before.stream + here.stream && f.gap == here.gap;
    RunAdds(s[k + 1..], a + PAGE_SIZE, f);
  }

  /** The views differ in page k at most. */
  ghost predicate DifferAt(s: seq<Seen>, t: seq<Seen>, k: nat) {
    k < |s| == |t| && s[..k] == t[..k] && s[k + 1..] == t[k + 1..]
  }

  /** Page k begins a run. */
  ghost predicate Begins(s: seq<Seen>, k: nat, gap: bool) {
    if 0 < k <= |s| then s[k - 1].Hole? else gap
  }

  ghost predicate PageSized(x: Seen) {
    x.Mapped? ==> |x.bytes| == PAGE_SIZE
  }

  /** The bytes of one mapped page. */
  lemma SamePage(x: Seen, y: Seen, a: nat, gap: bool)
    requires x.Mapped? && y.Mapped? && |x.bytes| == |y.bytes|
    ensures var here, there := Feed(x, a, Sink([], gap)), Feed(y, a, Sink([], gap));
      && |here.stream| == |there.stream| && here.gap == there.gap
      && (here.stream == there.stream <==> x.bytes == y.bytes && (gap ==> x.flags == y.flags))
  {
    var h, none: seq<nat> := Bytes(a), [];
    var u, v := none + Header(a, x.flags, gap) + x.bytes, none + Header(a, y.flags, gap) + y.bytes;
    if gap {
      SameHeads(h, x.flags, x.bytes, y.flags, y.bytes, u, v);
    } else {
      assert u == x.bytes && v == y.bytes;
    }
  }

  lemma BothMapped(s: seq<Seen>, t: seq<Seen>, va: nat, o: Sink, k: nat)
    requires DifferAt(s, t, k) && s[k].Mapped? && t[k].Mapped? && PageSized(s[k]) && PageSized(t[k])
    ensures Run(s, va, o).stream == Run(t, va, o).stream <==>
      s[k].bytes == t[k].bytes && (Begins(s, k, o.gap) ==> s[k].flags == t[k].flags)
  {
    AroundPage(s, va, o, k);
    AroundPage(t, va, o, k);
    GapAfter(s[..k], va, o);
    var a, before := va + k * PAGE_SIZE, Run(s[..k], va, o);
    var here, there := Feed(s[k], a, Sink([], before.gap)), Feed(t[k], a, Sink([], before.gap));
    SamePage(s[k], t[k], a, before.gap);
    SameMiddle(before.stream, here.stream, there.stream, Adds(s[k + 1..], a + PAGE_SIZE, here.gap));
  }

  lemma SameMiddle(a: seq<nat>, b: seq<nat>, c: seq<nat>, d: seq<nat>)
    requires |b| == |c|
    ensures a + b + d == a + c + d <==> b == c
  {
    assert (a + b + d)[|a|..|a| + |b|] == b && (a + c + d)[|a|..|a| + |c|] == c;
  }

  lemma SameHeads(h: seq<nat>, f: nat, b: seq<nat>, g: nat, c: seq<nat>, x: seq<nat>, y: seq<nat>)
    requires |b| == |c| && x == h + [f] + b && y == h + [g] + c
    ensures x == y <==> f == g && b == c
  {
    assert x[|h|] == f && y[|h|] == g && x[|h| + 1..] == b && y[|h| + 1..] == c;
  }

  lemma OneMapped(s: seq<Seen>, t: seq<Seen>, va: nat, o: Sink, k: nat)
    requires DifferAt(s, t, k) && s[k].Hole? && t[k].Mapped? && PageSized(t[k])
    ensures |Run(s, va, o).stream| < |Run(t, va, o).stream|
  {
    AroundPage(s, va, o, k);
    AroundPage(t, va, o, k);
    GapAdds(s[k + 1..], va + k * PAGE_SIZE + PAGE_SIZE);
  }

  /** Main result: two views that differ in page k at most feed the same bytes exactly if the page is mapped in both or
      in neither, with the same contents, and with the same flag byte if it begins a run. */
  lemma OnePageChange(s: seq<Seen>, t: seq<Seen>, va: nat, o: Sink, k: nat)
    requires DifferAt(s, t, k) && PageSized(s[k]) && PageSized(t[k])
    ensures Run(s, va, o).stream == Run(t, va, o).stream <==>
      || (s[k].Hole? && t[k].Hole?)
      || (s[k].Mapped? && t[k].Mapped? && s[k].bytes == t[k].bytes
          && (Begins(s, k, o.gap) ==> s[k].flags == t[k].flags))
  {
    if s[k].Hole? && t[k].Hole? {
      assert s == s[..k] + [s[k]] + s[k + 1..] && t == t[..k] + [t[k]] + t[k + 1..];
    } else if s[k].Hole? {
      OneMapped(s, t, va, o, k);
    } else if t[k].Hole? {
      OneMapped(t, s, va, o, k);
    } else {
      BothMapped(s, t, va, o, k);
    }
  }
}
