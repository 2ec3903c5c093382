/** The SHA-512 compression function: sha512_process_block of demo/crypt/crypt.c, which keeps sixteen words of the
    message schedule in a ring, against the eighty words of section 6.4.2 of FIPS 180-4. */
module Sha512Block {
  import opened HashStream

  /** The operations on words: addition, the functions of section 4.1.3 of FIPS 180-4, and a big-endian load. */
  datatype Ops<!W> = Ops(
    add: (W, W) -> W, s0: W -> W, s1: W -> W, S0: W -> W, S1: W -> W, ch: (W, W, W) -> W, maj: (W, W, W) -> W,
      load: W -> W)

  ghost predicate Commutes<W(!new)>(add: (W, W) -> W) {
    forall a: W, b: W :: add(a, b) == add(b, a)
  }

  ghost predicate Associates<W(!new)>(add: (W, W) -> W) {
    forall a: W, b: W, c: W :: add(add(a, b), c) == add(a, add(b, c))
  }

  /** The laws of addition, behind a bound variable, so that only proofs that name them see inside. */
  ghost predicate AddOk<W(!new)>(add: (W, W) -> W) {
    forall t: nat :: t == 2 ==> Laws(add, t)
  }

  ghost predicate Laws<W(!new)>(add: (W, W) -> W, operands: nat) {
    Commutes(add) && Associates(add)
  }

  // ----- the standard -----

  /** W_t from the words before it. */
  function Scheduled<W>(o: Ops<W>, w: seq<W>, t: nat): W
    requires 16 <= t <= |w|
  {
    o.add(o.add(o.add(o.s1(w[t - 2]), w[t - 7]), o.s0(w[t - 15])), w[t - 16])
  }

  /** The message schedule: the sixteen words of the block, then each from those before. */
  function Schedule<W>(o: Ops<W>, m: seq<W>, n: nat): (w: seq<W>)
    requires |m| == 16 && n >= 16
    ensures |w| == n
  {
    if n == 16 then m
    else
      var w := Schedule(o, m, n - 1);
      w + [Scheduled(o, w, n - 1)]
  }

  lemma {:induction false} SchedulePrefix<W>(o: Ops<W>, m: seq<W>, k: nat, n: nat)
    requires |m| == 16 && 16 <= k <= n
    ensures Schedule(o, m, k) == Schedule(o, m, n)[..k]
    decreases n
  {
    if k < n { SchedulePrefix(o, m, k, n - 1); }
  }

  /** Word t of a longer schedule. */
  lemma ScheduleAt<W>(o: Ops<W>, m: seq<W>, t: nat, n: nat)
    requires |m| == 16 && 16 <= t < n
    ensures Schedule(o, m, n)[t] == Scheduled(o, Schedule(o, m, n), t)
    ensures forall k :: 0 <= k < 16 ==> Schedule(o, m, n)[k] == m[k]
  {
    SchedulePrefix(o, m, 16, n);
    SchedulePrefix(o, m, t, n);
    SchedulePrefix(o, m, t + 1, n);
  }

  /** One round: T1 = h + S1(e) + Ch + K + W and T2 = S0(a) + Maj. */
  function Round<W>(o: Ops<W>, r: Regs<W>, k: W, w: W): Regs<W> {
    var t1 := o.add(o.add(o.add(o.add(r.h, o.S1(r.e)), o.ch(r.e, r.f, r.g)), k), w);
    var t2 := o.add(o.S0(r.a), o.maj(r.a, r.b, r.c));
    Regs(o.add(t1, t2), r.a, r.b, r.c, o.add(r.d, t1), r.e, r.f, r.g)
  }

  function Rounds<W>(o: Ops<W>, ks: seq<W>, r: Regs<W>, w: seq<W>, n: nat): Regs<W>
    requires n <= |ks| && n <= |w|
  {
    if n == 0 then r else Round(o, Rounds(o, ks, r, w, n - 1), ks[n - 1], w[n - 1])
  }

  function AddRegs<W>(o: Ops<W>, r: Regs<W>, s: Regs<W>): Regs<W> {
    Regs(o.add(r.a, s.a), o.add(r.b, s.b), o.add(r.c, s.c), o.add(r.d, s.d),
         o.add(r.e, s.e), o.add(r.f, s.f), o.add(r.g, s.g), o.add(r.h, s.h))
  }

  // ----- the program -----

  /** A round as the program adds it up. */
  function Turn<W>(o: Ops<W>, r: Regs<W>, k: W, w: W): Regs<W> {
    var tmp := o.add(o.add(o.add(o.add(w, r.h), o.S1(r.e)), o.ch(r.e, r.f, r.g)), k);
    Regs(o.add(o.add(tmp, o.maj(r.a, r.b, r.c)), o.S0(r.a)), r.a, r.b, r.c, o.add(r.d, tmp), r.e, r.f, r.g)
  }

  lemma Rotate<W(!new)>(add: (W, W) -> W, w: W, a: W, b: W, c: W, d: W)
    requires Commutes(add) && Associates(add)
    ensures add(add(add(add(w, a), b), c), d) == add(add(add(add(a, b), c), d), w)
  {
    assert add(w, a) == add(a, w);
    assert add(add(a, w), b) == add(a, add(w, b)) == add(a, add(b, w)) == add(add(a, b), w);
    assert add(add(add(a, b), w), c) == add(add(a, b), add(w, c)) == add(add(a, b), add(c, w)) ==
      add(add(add(a, b), c), w);
    var x := add(add(a, b), c);
    assert add(add(x, w), d) == add(x, add(w, d)) == add(x, add(d, w)) == add(add(x, d), w);
  }

  lemma SwapLast<W(!new)>(add: (W, W) -> W, x: W, y: W, z: W)
    requires Commutes(add) && Associates(add)
    ensures add(add(x, y), z) == add(x, add(z, y))
  {
    assert add(add(x, y), z) == add(x, add(y, z)) && add(y, z) == add(z, y);
  }

  /** The order of the additions does not matter. */
  lemma TurnIsRound<W(!new)>(o: Ops<W>, r: Regs<W>, k: W, w: W)
    requires AddOk(o.add)
    ensures Turn(o, r, k, w) == Round(o, r, k, w)
  {
    assert Laws(o.add, 2);
    Rotate(o.add, w, r.h, o.S1(r.e), o.ch(r.e, r.f, r.g), k);
    var t1 := o.add(o.add(o.add(o.add(r.h, o.S1(r.e)), o.ch(r.e, r.f, r.g)), k), w);
    SwapLast(o.add, t1, o.maj(r.a, r.b, r.c), o.S0(r.a));
  }

  /** Nor in the schedule. */
  lemma SumIsScheduled<W(!new)>(o: Ops<W>, w: seq<W>, t: nat)
    requires AddOk(o.add) && 16 <= t <= |w|
    ensures o.add(o.add(o.add(o.s0(w[t - 15]), o.s1(w[t - 2])), w[t - 16]), w[t - 7]) == Scheduled(o, w, t)
  {
    assert Laws(o.add, 2);
    var add, a, b, c, d := o.add, o.s0(w[t - 15]), o.s1(w[t - 2]), w[t - 16], w[t - 7];
    assert add(a, b) == add(b, a);
    assert add(add(add(b, a), c), d) == add(add(b, a), add(c, d)) == add(b, add(a, add(c, d)));
    assert add(a, add(c, d)) == add(a, add(d, c)) == add(add(a, d), c) == add(add(d, a), c) == add(d, add(a, c));
    assert add(b, add(d, add(a, c))) == add(add(b, d), add(a, c)) == add(add(add(b, d), a), c);
  }

  /** The ring holds the last sixteen words before i, each at its number modulo 16. */
  ghost predicate Ring<W>(ring: seq<W>, words: seq<W>, i: nat) {
    |ring| == 16 <= i <= |words| && forall t :: i - 16 <= t < i ==> ring[t % 16] == words[t]
  }

  lemma RingNext<W>(ring: seq<W>, words: seq<W>, i: nat)
    requires Ring(ring, words, i) && i < |words|
    ensures ring[(i + 1) % 16] == words[i - 15] && ring[(i + 14) % 16] == words[i - 2]
    ensures ring[i % 16] == words[i - 16] && ring[(i + 9) % 16] == words[i - 7]
    ensures Ring(ring[i % 16 := words[i]], words, i + 1)
  {
    assert (i + 1) % 16 == (i - 15) % 16 && (i + 14) % 16 == (i - 2) % 16 && i % 16 == (i - 16) % 16
      && (i + 9) % 16 == (i - 7) % 16;
  }

  const WORDS: nat := 80

  /** r is the state of the registers after i rounds, behind a bound variable. */
  ghost predicate AtRound<W>(o: Ops<W>, ks: seq<W>, state: Regs<W>, words: seq<W>, i: nat, r: Regs<W>) {
    forall k: nat :: k == i ==> RoundIs(o, ks, state, words, k, r)
  }

  ghost predicate RoundIs<W>(o: Ops<W>, ks: seq<W>, state: Regs<W>, words: seq<W>, i: nat, r: Regs<W>) {
    i <= |ks| && i <= |words| && r == Rounds(o, ks, state, words, i)
  }

  lemma RoundStep<W>(o: Ops<W>, ks: seq<W>, state: Regs<W>, words: seq<W>, i: nat, r: Regs<W>)
    requires AtRound(o, ks, state, words, i, r) && i < |ks| && i < |words|
    ensures AtRound(o, ks, state, words, i + 1, Round(o, r, ks[i], words[i]))
  {
    assert RoundIs(o, ks, state, words, i, r);
  }

  function Loaded<W>(o: Ops<W>, w: seq<W>): (m: seq<W>)
    ensures |m| == |w| && forall k :: 0 <= k < |w| ==> m[k] == o.load(w[k])
  {
    seq(|w|, k requires 0 <= k < |w| => o.load(w[k]))
  }

  /** The first sixteen rounds load the words as they use them. */
  method FirstRounds<W(!new)>(o: Ops<W>, ks: seq<W>, state: Regs<W>, w: array<W>, ghost words: seq<W>)
      returns (r: Regs<W>)
    requires w.Length == 16 && |ks| == WORDS == |words| && AddOk(o.add)
    requires forall k :: 0 <= k < 16 ==> words[k] == o.load(w[k])
    modifies w
    ensures AtRound(o, ks, state, words, 16, r) && w[..] == words[..16]
  {
    ghost var raw := w[..];
    r := state;
    var i := 0;
    assert RoundIs(o, ks, state, words, i, r);
    while i < 16
      invariant 0 <= i <= 16 && AtRound(o, ks, state, words, i, r)
      invariant forall k :: 0 <= k < i ==> w[k] == words[k]
      invariant forall k :: i <= k < 16 ==> w[k] == raw[k]
    {
      w[i] := o.load(w[i]);
      TurnIsRound(o, r, ks[i], w[i]);
      RoundStep(o, ks, state, words, i, r);
      r := Turn(o, r, ks[i], w[i]);
      i := i + 1;
    }
  }

  /** One of the other rounds: the oldest word of the ring makes way for the next. */
  method RingRound<W(!new)>(o: Ops<W>, k: W, r: Regs<W>, w: array<W>, i: nat, ghost words: seq<W>)
      returns (next: Regs<W>)
    requires w.Length == 16 && Ring(w[..], words, i) && i < |words| && words[i] == Scheduled(o, words, i)
    requires AddOk(o.add)
    modifies w
    ensures Ring(w[..], words, i + 1) && next == Round(o, r, k, words[i])
  {
    RingNext(w[..], words, i);
    SumIsScheduled(o, words, i);
    var a, b := w[(i + 1) % 16], w[(i + 14) % 16];
    ghost var before := w[..];
    w[i % 16] := o.add(o.add(o.add(o.s0(a), o.s1(b)), w[i % 16]), w[(i + 9) % 16]);
    assert w[..] == before[i % 16 := words[i]];
    TurnIsRound(o, r, k, words[i]);
    next := Turn(o, r, k, w[i % 16]);
  }

  /** The rest of the schedule follows from the words before. */
  ghost predicate Continues<W>(o: Ops<W>, words: seq<W>) {
    forall t: nat :: 16 <= t < |words| ==> ContinuesAt(o, words, t)
  }

  ghost predicate ContinuesAt<W>(o: Ops<W>, words: seq<W>, t: nat) {
    16 <= t < |words| && words[t] == Scheduled(o, words, t)
  }

  method LaterRounds<W(!new)>(o: Ops<W>, ks: seq<W>, state: Regs<W>, w: array<W>, ghost words: seq<W>, r0: Regs<W>)
      returns (r: Regs<W>)
    requires w.Length == 16 && |ks| == |words| >= 16 && Continues(o, words) && AddOk(o.add)
    requires AtRound(o, ks, state, words, 16, r0) && Ring(w[..], words, 16)
    modifies w
    ensures r == Rounds(o, ks, state, words, |ks|)
  {
    r := r0;
    var i := 16;
    while i < |ks|
      invariant 16 <= i <= |ks| && Ring(w[..], words, i) && AtRound(o, ks, state, words, i, r)
    {
      assert ContinuesAt(o, words, i);
      RoundStep(o, ks, state, words, i, r);
      r := RingRound(o, ks[i], r, w, i, words);
      i := i + 1;
    }
    assert RoundIs(o, ks, state, words, |ks|, r);
  }

  lemma ScheduleContinues<W>(o: Ops<W>, m: seq<W>, n: nat)
    requires |m| == 16 && n > 16
    ensures Continues(o, Schedule(o, m, n)) && forall k :: 0 <= k < 16 ==> Schedule(o, m, n)[k] == m[k]
  {
    ScheduleAt(o, m, 16, n);
    forall t: nat | 16 <= t < n ensures ContinuesAt(o, Schedule(o, m, n), t) { ScheduleAt(o, m, t, n); }
  }

  /** The words of a block of the standard, and its registers after all rounds, added to those before. */
  function Compressed<W>(o: Ops<W>, ks: seq<W>, state: Regs<W>, m: seq<W>): Regs<W>
    requires |m| == 16 && |ks| > 16
  {
    AddRegs(o, state, Rounds(o, ks, state, Schedule(o, m, |ks|), |ks|))
  }

  /** Main result: the program computes the compression function of the standard. */
  method ProcessBlock<W(!new)>(o: Ops<W>, ks: seq<W>, state: Regs<W>, w: array<W>) returns (s: Regs<W>)
    requires w.Length == 16 && |ks| == WORDS && AddOk(o.add)
    modifies w
    ensures s == Compressed(o, ks, state, Loaded(o, old(w[..])))
  {
    ghost var words := Schedule(o, Loaded(o, w[..]), |ks|);
    ScheduleContinues(o, Loaded(o, w[..]), |ks|);
    var r := FirstRounds(o, ks, state, w, words);
    r := LaterRounds(o, ks, state, w, words, r);
    s := AddRegs(o, state, r);
  }

  /** Two sets of operations that differ at most in how Ch and Maj are written. */
  ghost predicate Agree<W(!new)>(o: Ops<W>, p: Ops<W>) {
    && o.add == p.add && o.s0 == p.s0 && o.s1 == p.s1 && o.S0 == p.S0 && o.S1 == p.S1
    && (forall x: W, y: W, z: W :: o.ch(x, y, z) == p.ch(x, y, z))
    && (forall x: W, y: W, z: W :: o.maj(x, y, z) == p.maj(x, y, z))
  }

  lemma {:induction false} ScheduleAgrees<W(!new)>(o: Ops<W>, p: Ops<W>, m: seq<W>, n: nat)
    requires Agree(o, p) && |m| == 16 && n >= 16
    ensures Schedule(o, m, n) == Schedule(p, m, n)
  {
    if n > 16 { ScheduleAgrees(o, p, m, n - 1); }
  }

  lemma {:induction false} RoundsAgree<W(!new)>(o: Ops<W>, p: Ops<W>, ks: seq<W>, r: Regs<W>, w: seq<W>, n: nat)
    requires Agree(o, p) && n <= |ks| && n <= |w|
    ensures Rounds(o, ks, r, w, n) == Rounds(p, ks, r, w, n)
  {
    if n > 0 { RoundsAgree(o, p, ks, r, w, n - 1); }
  }

  lemma CompressedAgree<W(!new)>(o: Ops<W>, p: Ops<W>, ks: seq<W>, r: Regs<W>, m: seq<W>)
    requires Agree(o, p) && |m| == 16 && |ks| > 16
    ensures Compressed(o, ks, r, m) == Compressed(p, ks, r, m)
  {
    ScheduleAgrees(o, p, m, |ks|);
    RoundsAgree(o, p, ks, r, Schedule(o, m, |ks|), |ks|);
  }
}
