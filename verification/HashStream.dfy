/** Hashing block by block: what lib/gm/source/SM3.c and demo/crypt/crypt.c share with their standards. */
module HashStream {
  import opened Collections

  /** Eight words of a chaining value. */
  datatype Regs<W> = Regs(a: W, b: W, c: W, d: W, e: W, f: W, g: W, h: W)

  function RegWords<W>(r: Regs<W>): (w: seq<W>)
    ensures |w| == 8
  {
    [r.a, r.b, r.c, r.d, r.e, r.f, r.g, r.h]
  }

  /** Blocks end to end. */
  ghost function Flat(bs: seq<seq<nat>>): seq<nat> {
    if |bs| == 0 then [] else Flat(bs[..|bs| - 1]) + bs[|bs| - 1]
  }

  ghost predicate AllSized(bs: seq<seq<nat>>, size: nat) {
    forall k :: 0 <= k < |bs| ==> |bs[k]| == size
  }

  /** The chaining value after the blocks. */
  ghost function Fold<S>(f: (S, seq<nat>) -> S, s: S, bs: seq<seq<nat>>): S {
    if |bs| == 0 then s else f(Fold(f, s, bs[..|bs| - 1]), bs[|bs| - 1])
  }

  lemma FlatNext(bs: seq<seq<nat>>, b: seq<nat>)
    ensures Flat(bs + [b]) == Flat(bs) + b
  {
    assert (bs + [b])[..|bs|] == bs;
  }

  lemma FoldNext<S>(f: (S, seq<nat>) -> S, s: S, bs: seq<seq<nat>>, b: seq<nat>)
    ensures Fold(f, s, bs + [b]) == f(Fold(f, s, bs), b)
  {
    assert (bs + [b])[..|bs|] == bs;
  }

  /** The padded message cut into blocks: the message, the byte 0x80, as few zeros as fill up a block, and the length
      field. */
  ghost predicate IsPadding(m: seq<nat>, field: seq<nat>, size: nat, bs: seq<seq<nat>>) {
    AllSized(bs, size) && exists k: nat :: k < size && Flat(bs) == PadBy(m, k, field)
  }

  ghost function PadBy(m: seq<nat>, k: nat, field: seq<nat>): seq<nat> {
    m + [0x80] + Zeros<nat>(0, k) + field
  }

  /** A padded message: the message, 0x80, zeros, and the field at the end. */
  lemma PaddingForm(m: seq<nat>, field: seq<nat>, size: nat, bs: seq<seq<nat>>, f: seq<nat>)
    requires IsPadding(m, field, size, bs) && f == Flat(bs)
    ensures |f| > |m| + |field| && f[..|m|] == m && f[|m|] == 0x80 && f[|f| - |field|..] == field
    ensures forall i :: |m| < i < |f| - |field| ==> f[i] == 0
  {
    var k: nat :| k < size && Flat(bs) == PadBy(m, k, field);
  }

  /** A message cut at block boundaries: whole blocks and what is left. */
  ghost predicate Cut(m: seq<nat>, size: nat, bs: seq<seq<nat>>, rest: seq<nat>) {
    AllSized(bs, size) && |rest| < size && m == Flat(bs) + rest
  }

  lemma CutByte(m: seq<nat>, size: nat, bs: seq<seq<nat>>, rest: seq<nat>, x: nat)
    requires Cut(m, size, bs, rest)
    ensures |rest| + 1 < size ==> Cut(m + [x], size, bs, rest + [x])
    ensures |rest| + 1 == size ==> Cut(m + [x], size, bs + [rest + [x]], [])
  {
    FlatNext(bs, rest + [x]);
    assert m + [x] == Flat(bs) + (rest + [x]);
  }

  /** The padding fits after the rest: one block. */
  lemma PadOne(m: seq<nat>, field: seq<nat>, size: nat, bs: seq<seq<nat>>, rest: seq<nat>, k: nat, last: seq<nat>)
    requires Cut(m, size, bs, rest) && |rest| + 1 + k + |field| == size
    requires last == rest + [0x80] + Zeros<nat>(0, k) + field
    ensures IsPadding(m, field, size, bs + [last])
  {
    FlatNext(bs, last);
    assert Flat(bs) + last == PadBy(m, k, field);
  }

  /** It does not: zeros to the end of the block, and one more block. */
  lemma PadTwo(m: seq<nat>, field: seq<nat>, size: nat, bs: seq<seq<nat>>, rest: seq<nat>, a: nat, b: nat)
    requires Cut(m, size, bs, rest) && |rest| + 1 + a == size && b + |field| == size && |rest| + 1 + |field| > size
    ensures IsPadding(m, field, size, bs + [rest + [0x80] + Zeros<nat>(0, a)] + [Zeros<nat>(0, b) + field])
  {
    var first, last := rest + [0x80] + Zeros<nat>(0, a), Zeros<nat>(0, b) + field;
    FlatNext(bs, first);
    FlatNext(bs + [first], last);
    assert Zeros<nat>(0, a) + Zeros<nat>(0, b) == Zeros<nat>(0, a + b);
    assert Flat(bs) + first + last == PadBy(m, a + b, field);
  }

  /** There is only one way to cut a message into blocks. */
  lemma {:induction false} OneCut(bs: seq<seq<nat>>, cs: seq<seq<nat>>, size: nat)
    requires size > 0 && AllSized(bs, size) && AllSized(cs, size) && Flat(bs) == Flat(cs)
    ensures bs == cs
    decreases |bs|
  {
    if |bs| > 0 && |cs| > 0 {
      var b, c := bs[..|bs| - 1], cs[..|cs| - 1];
      assert |Flat(bs)| == |Flat(b)| + size == |Flat(c)| + size;
      assert Flat(bs)[..|Flat(b)|] == Flat(b) && Flat(cs)[..|Flat(c)|] == Flat(c);
      assert Flat(bs)[|Flat(b)|..] == bs[|bs| - 1] && Flat(cs)[|Flat(c)|..] == cs[|cs| - 1];
      OneCut(b, c, size);
      assert bs == b + [bs[|bs| - 1]] && cs == c + [cs[|cs| - 1]];
    }
  }

  /** The hash of a message with a given length field. */
  ghost predicate IsHash<S>(f: (S, seq<nat>) -> S, iv: S, m: seq<nat>, field: seq<nat>, size: nat, h: S) {
    exists bs: seq<seq<nat>> :: IsPadding(m, field, size, bs) && h == Fold(f, iv, bs)
  }

  /** The padding fits into the block of the rest. */
  lemma OneBlock<S>(f: (S, seq<nat>) -> S, iv: S, m: seq<nat>, field: seq<nat>, size: nat, bs: seq<seq<nat>>,
                    rest: seq<nat>, h: S)
    requires Cut(m, size, bs, rest) && |rest| + 1 + |field| <= size
    requires h == f(Fold(f, iv, bs), rest + [0x80] + Zeros<nat>(0, size - 1 - |field| - |rest|) + field)
    ensures IsHash(f, iv, m, field, size, h)
  {
    var last := rest + [0x80] + Zeros<nat>(0, size - 1 - |field| - |rest|) + field;
    PadOne(m, field, size, bs, rest, size - 1 - |field| - |rest|, last);
    FoldNext(f, iv, bs, last);
  }

  /** The padding takes a block more: g is the chaining value in between. */
  lemma TwoBlocks<S>(f: (S, seq<nat>) -> S, iv: S, m: seq<nat>, field: seq<nat>, size: nat, bs: seq<seq<nat>>,
                     rest: seq<nat>, g: S, h: S)
    requires Cut(m, size, bs, rest) && |rest| + 1 + |field| > size >= |field|
    requires g == f(Fold(f, iv, bs), rest + [0x80] + Zeros<nat>(0, size - 1 - |rest|))
    requires h == f(g, Zeros<nat>(0, size - |field|) + field)
    ensures IsHash(f, iv, m, field, size, h)
  {
    var a, b := rest + [0x80] + Zeros<nat>(0, size - 1 - |rest|), Zeros<nat>(0, size - |field|) + field;
    PadTwo(m, field, size, bs, rest, size - 1 - |rest|, size - |field|);
    FoldNext(f, iv, bs, a);
    FoldNext(f, iv, bs + [a], b);
  }

  /** There is only one number of zeros that fills up a block. */
  lemma OnePadding(m: seq<nat>, field: seq<nat>, size: nat, bs: seq<seq<nat>>, cs: seq<seq<nat>>)
    requires size > 0 && IsPadding(m, field, size, bs) && IsPadding(m, field, size, cs)
    ensures bs == cs
  {
    var j: nat :| j < size && Flat(bs) == PadBy(m, j, field);
    var k: nat :| k < size && Flat(cs) == PadBy(m, k, field);
    FlatSize(bs, size);
    FlatSize(cs, size);
    SameZeros(|m| + 1 + |field|, j, k, |bs|, |cs|, size);
    OneCut(bs, cs, size);
  }

  lemma {:induction false} FlatSize(bs: seq<seq<nat>>, size: nat)
    requires AllSized(bs, size)
    ensures |Flat(bs)| == |bs| * size
  {
    if |bs| > 0 { FlatSize(bs[..|bs| - 1], size); }
  }

  lemma SameZeros(n: nat, j: nat, k: nat, p: nat, q: nat, size: nat)
    requires j < size && k < size && n + j == p * size && n + k == q * size
    ensures j == k
  {
    if p > q {
      More(p, q, size);
    } else if p < q {
      More(q, p, size);
    }
  }

  lemma More(p: nat, q: nat, size: nat)
    requires p > q
    ensures p * size >= q * size + size
  {
    var d := p - q - 1;
    assert p * size == q * size + size + d * size;
  }

  /** Main result: the hash of a message is unique, so it cannot depend on how the message was fed in. */
  lemma OneHash<S>(f: (S, seq<nat>) -> S, iv: S, m: seq<nat>, field: seq<nat>, size: nat, h: S, h': S)
    requires size > 0 && IsHash(f, iv, m, field, size, h) && IsHash(f, iv, m, field, size, h')
    ensures h == h'
  {
    var bs: seq<seq<nat>> :| IsPadding(m, field, size, bs) && h == Fold(f, iv, bs);
    var cs: seq<seq<nat>> :| IsPadding(m, field, size, cs) && h' == Fold(f, iv, cs);
    OnePadding(m, field, size, bs, cs);
  }

  /** Every message can be cut into blocks, */
  lemma {:induction false} CutExists(m: seq<nat>, size: nat) returns (bs: seq<seq<nat>>, rest: seq<nat>)
    requires size > 0
    ensures Cut(m, size, bs, rest)
  {
    bs, rest := [], [];
    if |m| > 0 {
      var last := m[|m| - 1];
      assert m == m[..|m| - 1] + [last];
      bs, rest := CutExists(m[..|m| - 1], size);
      CutByte(m[..|m| - 1], size, bs, rest, last);
      if |rest| + 1 < size { rest := rest + [last]; } else { bs, rest := bs + [rest + [last]], []; }
    }
  }

  /** and so has a hash. */
  lemma HashExists<S>(f: (S, seq<nat>) -> S, iv: S, m: seq<nat>, field: seq<nat>, size: nat) returns (h: S)
    requires |field| <= size && size > 0
    ensures IsHash(f, iv, m, field, size, h)
  {
    var bs, rest := CutExists(m, size);
    if |rest| + 1 + |field| <= size {
      h := f(Fold(f, iv, bs), rest + [0x80] + Zeros<nat>(0, size - 1 - |field| - |rest|) + field);
      OneBlock(f, iv, m, field, size, bs, rest, h);
    } else {
      var g := f(Fold(f, iv, bs), rest + [0x80] + Zeros<nat>(0, size - 1 - |rest|));
      h := f(g, Zeros<nat>(0, size - |field|) + field);
      TwoBlocks(f, iv, m, field, size, bs, rest, g, h);
    }
  }
}
