/** The SM3 compression function: BiToW, WToW1 and CF of lib/gm/source/SM3.c, which turn the round constant by one place
    each round, against section 5.3 of GM/T 0004-2012. */
module Sm3Block {
  import opened HashStream

  /** The operations on words: addition, xor, the functions of section 4 of the standard, rotations to the left by one
      and by sixteen places, the two constants, half the bits of a word and all of them, and words as numbers. */
  datatype Ops<!W> = Ops(
    add: (W, W) -> W, xor: (W, W) -> W, rot1: W -> W, rot7: W -> W, rot9: W -> W, rot12: W -> W, rot15: W -> W,
    rot16: W -> W, rot19: W -> W, p0: W -> W, p1: W -> W, ff0: (W, W, W) -> W, ff1: (W, W, W) -> W,
    gg0: (W, W, W) -> W, gg1: (W, W, W) -> W, t1: W, t2: W,
    half: nat, full: nat, load: nat -> W, store: W -> nat)

  /** x rotated n times by one place. */
  function Spin<W>(rot1: W -> W, x: W, n: nat): W {
    if n == 0 then x else rot1(Spin(rot1, x, n - 1))
  }

  /** Sixteen turns at once are sixteen turns, and thirty-two are none. */
  ghost predicate Turns<W(!new)>(o: Ops<W>) {
    o.half == 16 && o.full == 32 && forall x: W :: TurnsAt(o, x)
  }

  ghost predicate TurnsAt<W>(o: Ops<W>, x: W) {
    o.rot16(x) == Spin(o.rot1, x, o.half) && Spin(o.rot1, x, o.full) == x
  }

  // ----- the standard -----

  const EXPANDED: nat := 68
  const ROUNDS: nat := 64

  /** W_j from the five words before it that count. */
  function Mixed<W>(o: Ops<W>, w16: W, w13: W, w9: W, w6: W, w3: W): W {
    o.xor(o.xor(o.p1(o.xor(o.xor(w16, w9), o.rot15(w3))), o.rot7(w13)), w6)
  }

  function Next<W>(o: Ops<W>, w: seq<W>, j: nat): W
    requires 16 <= j <= |w|
  {
    Mixed(o, w[j - 16], w[j - 13], w[j - 9], w[j - 6], w[j - 3])
  }

  /** The message expansion: the sixteen words of the block, then each from those before. */
  function Expanded<W>(o: Ops<W>, m: seq<W>, n: nat): (w: seq<W>)
    requires |m| == 16 && n >= 16
    ensures |w| == n
  {
    if n == 16 then m
    else
      var w := Expanded(o, m, n - 1);
      w + [Next(o, w, n - 1)]
  }

  /** The constant of round j: T_j turned by j modulo 32 places. */
  function Turned<W>(o: Ops<W>, j: nat): W
    requires o.full > 0
  {
    Spin(o.rot1, Base(o, j), j % o.full)
  }

  function Base<W>(o: Ops<W>, j: nat): W {
    if j < 16 then o.t1 else o.t2
  }

  /** Round j on word W_j and word W'_j. */
  function Round<W>(o: Ops<W>, r: Regs<W>, j: nat, t: W, w: W, w1: W): Regs<W> {
    var ss1 := o.rot7(o.add(o.add(o.rot12(r.a), r.e), t));
    var ss2 := o.xor(ss1, o.rot12(r.a));
    var ff := if j <= 15 then o.ff0(r.a, r.b, r.c) else o.ff1(r.a, r.b, r.c);
    var gg := if j <= 15 then o.gg0(r.e, r.f, r.g) else o.gg1(r.e, r.f, r.g);
    var tt1 := o.add(o.add(o.add(ff, r.d), ss2), w1);
    var tt2 := o.add(o.add(o.add(gg, r.h), ss1), w);
    Regs(tt1, r.a, o.rot9(r.b), r.c, o.p0(tt2), r.e, o.rot19(r.f), r.g)
  }

  function Rounds<W>(o: Ops<W>, r: Regs<W>, w: seq<W>, n: nat): Regs<W>
    requires n + 4 <= |w| && o.full > 0
  {
    if n == 0 then r
    else Round(o, Rounds(o, r, w, n - 1), n - 1, Turned(o, n - 1), w[n - 1], o.xor(w[n - 1], w[n + 3]))
  }

  function XorRegs<W>(o: Ops<W>, r: Regs<W>, s: Regs<W>): Regs<W> {
    Regs(o.xor(r.a, s.a), o.xor(r.b, s.b), o.xor(r.c, s.c), o.xor(r.d, s.d),
         o.xor(r.e, s.e), o.xor(r.f, s.f), o.xor(r.g, s.g), o.xor(r.h, s.h))
  }

  /** CF of section 5.3.3. */
  function Compressed<W>(o: Ops<W>, v: Regs<W>, m: seq<W>): Regs<W>
    requires |m| == 16 && o.full > 0
  {
    XorRegs(o, Rounds(o, v, Expanded(o, m, EXPANDED), ROUNDS), v)
  }

  // ----- the program -----

  lemma ExpandStep<W>(o: Ops<W>, m: seq<W>, w: seq<W>, i: nat)
    requires |m| == 16 && i >= 16 && w == Expanded(o, m, i)
    ensures w + [Next(o, w, i)] == Expanded(o, m, i + 1)
  {
  }

  /** BiToW. */
  method BiToW<W(0)>(o: Ops<W>, m: seq<W>) returns (w: array<W>)
    requires |m| == 16
    ensures fresh(w) && w[..] == Expanded(o, m, EXPANDED)
  {
    w := CopyWords(m, EXPANDED);
    var i := 16;
    while i < EXPANDED
      invariant 16 <= i <= EXPANDED && w[..i] == Expanded(o, m, i)
    {
      ExpandWord(o, m, w, i);
      i := i + 1;
    }
    assert w[..] == w[..i];
  }

  method CopyWords<W(0)>(m: seq<W>, n: nat) returns (w: array<W>)
    requires |m| <= n
    ensures fresh(w) && w.Length == n && w[..|m|] == m
  {
    w := new W[n];
    var i := 0;
    while i < |m|
      invariant 0 <= i <= |m| && forall k :: 0 <= k < i ==> w[k] == m[k]
    {
      w[i] := m[i];
      i := i + 1;
    }
  }

  method ExpandWord<W>(o: Ops<W>, ghost m: seq<W>, w: array<W>, i: nat)
    requires |m| == 16 && 16 <= i < w.Length && w[..i] == Expanded(o, m, i)
    modifies w
    ensures w[..i + 1] == Expanded(o, m, i + 1)
  {
    ghost var before := w[..i];
    w[i] := MixWord(o, w[i - 16], w[i - 13], w[i - 9], w[i - 6], w[i - 3]);
    assert w[..i + 1] == before + [w[i]];
    ExpandStep(o, m, before, i);
  }

  method MixWord<W>(o: Ops<W>, w16: W, w13: W, w9: W, w6: W, w3: W) returns (w: W)
    ensures w == Mixed(o, w16, w13, w9, w6, w3)
  {
    var tmp := o.xor(o.xor(w16, w9), o.rot15(w3));
    w := o.xor(o.xor(o.p1(tmp), o.rot7(w13)), w6);
  }

  /** WToW1. */
  method WToW1<W(0)>(o: Ops<W>, w: array<W>) returns (w1: array<W>)
    requires w.Length == EXPANDED
    ensures fresh(w1) && w1.Length == ROUNDS && forall k :: 0 <= k < ROUNDS ==> w1[k] == o.xor(w[k], w[k + 4])
  {
    w1 := new W[ROUNDS];
    var i := 0;
    while i < ROUNDS
      invariant 0 <= i <= ROUNDS && forall k :: 0 <= k < i ==> w1[k] == o.xor(w[k], w[k + 4])
    {
      w1[i] := o.xor(w[i], w[i + 4]);
      i := i + 1;
    }
  }

  /** One turn more, or from the last turn back to none. */
  lemma TurnFrom<W>(rot1: W -> W, x: W, n: nat, n': nat, full: nat, t: W)
    requires n < full && n' == (if n + 1 == full then 0 else n + 1) && Spin(rot1, x, full) == x && t == Spin(rot1, x, n)
    ensures rot1(t) == Spin(rot1, x, n')
  {
    assert Spin(rot1, x, n + 1) == rot1(t);
  }

  lemma NextTurn(j: nat, full: nat)
    requires j > 0 && full == 32
    ensures j % full == if (j - 1) % full + 1 == full then 0 else (j - 1) % full + 1
  {
  }

  /** t is the constant of round j, behind a bound variable. */
  ghost predicate IsTurned<W>(o: Ops<W>, j: nat, t: W) {
    forall k: nat :: k == j ==> TurnedIs(o, k, t)
  }

  ghost predicate TurnedIs<W>(o: Ops<W>, j: nat, t: W) {
    o.full > 0 && t == Turned(o, j)
  }

  /** Turning the constant of the round before by one place gives that of the round, also past thirty-two places. */
  lemma TurnOnce<W(!new)>(o: Ops<W>, j: nat, t: W)
    requires Turns(o) && 0 < j && j != 16 && IsTurned(o, j - 1, t)
    ensures IsTurned(o, j, o.rot1(t))
  {
    var n, n' := (j - 1) % o.full, j % o.full;
    assert TurnedIs(o, j - 1, t) && TurnsAt(o, Base(o, j));
    NextTurn(j, o.full);
    TurnFrom(o.rot1, Base(o, j), n, n', o.full, t);
    assert Turned(o, j) == Spin(o.rot1, Base(o, j), n');
  }

  lemma TurnHalf<W(!new)>(o: Ops<W>, j: nat)
    requires Turns(o) && j == 16
    ensures IsTurned(o, j, o.rot16(o.t2))
  {
    assert TurnsAt(o, o.t2);
    assert j % o.full == o.half;
  }

  /** The constant as the loop computes it. */
  method NextConstant<W(!new)>(o: Ops<W>, j: nat, t: W) returns (next: W)
    requires Turns(o) && (j > 0 ==> IsTurned(o, j - 1, t))
    ensures IsTurned(o, j, next)
  {
    if j == 0 {
      next := o.t1;
    } else if j == 16 {
      TurnHalf(o, j);
      next := o.rot16(o.t2);
    } else {
      TurnOnce(o, j, t);
      next := o.rot1(t);
    }
  }

  /** r is the state of the registers before round j, behind a bound variable. */
  ghost predicate AtRound<W>(o: Ops<W>, v: Regs<W>, words: seq<W>, j: nat, r: Regs<W>) {
    forall k: nat :: k == j ==> RoundIs(o, v, words, k, r)
  }

  ghost predicate RoundIs<W>(o: Ops<W>, v: Regs<W>, words: seq<W>, j: nat, r: Regs<W>) {
    j + 4 <= |words| && o.full > 0 && r == Rounds(o, v, words, j)
  }

  lemma RoundStep<W>(o: Ops<W>, v: Regs<W>, words: seq<W>, j: nat, r: Regs<W>, t: W, w1: W)
    requires AtRound(o, v, words, j, r) && j + 5 <= |words| && IsTurned(o, j, t) && w1 == o.xor(words[j], words[j + 4])
    ensures AtRound(o, v, words, j + 1, Round(o, r, j, t, words[j], w1))
  {
    assert RoundIs(o, v, words, j, r) && TurnedIs(o, j, t);
  }

  /** CF: the rounds and the last xor. */
  method Cf<W(!new)>(o: Ops<W>, w: array<W>, w1: array<W>, v: Regs<W>) returns (r: Regs<W>)
    requires Turns(o) && w.Length == EXPANDED && w1.Length == ROUNDS
    requires forall k :: 0 <= k < ROUNDS ==> w1[k] == o.xor(w[k], w[k + 4])
    ensures r == XorRegs(o, Rounds(o, v, w[..], ROUNDS), v)
  {
    r := v;
    var t := o.t1;
    var j := 0;
    assert RoundIs(o, v, w[..], j, r);
    while j < ROUNDS
      invariant 0 <= j <= ROUNDS && AtRound(o, v, w[..], j, r) && (j > 0 ==> IsTurned(o, j - 1, t))
    {
      t := NextConstant(o, j, t);
      RoundStep(o, v, w[..], j, r, t, w1[j]);
      r := CfRound(o, r, j, t, w[j], w1[j]);
      j := j + 1;
    }
    assert RoundIs(o, v, w[..], ROUNDS, r);
    r := XorRegs(o, r, v);
  }

  /** One turn of the loop, register by register in the order of the program. */
  method CfRound<W>(o: Ops<W>, r: Regs<W>, j: nat, t: W, w: W, w1: W) returns (s: Regs<W>)
    ensures s == Round(o, r, j, t, w, w1)
  {
    var a, b, c, d, e, f, g, h := r.a, r.b, r.c, r.d, r.e, r.f, r.g, r.h;
    var ss1 := o.rot7(o.add(o.add(o.rot12(a), e), t));
    var ss2 := o.xor(ss1, o.rot12(a));
    var ff, gg;
    if j <= 15 { ff := o.ff0(a, b, c); } else { ff := o.ff1(a, b, c); }
    var tt1 := o.add(o.add(o.add(ff, d), ss2), w1);
    if j <= 15 { gg := o.gg0(e, f, g); } else { gg := o.gg1(e, f, g); }
    var tt2 := o.add(o.add(o.add(gg, h), ss1), w);
    d := c;
    c := o.rot9(b);
    b := a;
    a := tt1;
    h := g;
    g := o.rot19(f);
    f := e;
    e := o.p0(tt2);
    s := Regs(a, b, c, d, e, f, g, h);
  }

  /** Main result: the program's compression is the standard's. */
  method CompressWords<W(0, !new)>(o: Ops<W>, v: Regs<W>, m: seq<W>) returns (r: Regs<W>)
    requires Turns(o) && |m| == 16
    ensures r == Compressed(o, v, m)
  {
    var w := BiToW(o, m);
    var w1 := WToW1(o, w);
    r := Cf(o, w, w1, v);
  }
}
