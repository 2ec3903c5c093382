/** Hash and checksum as sums over the parts of a message, its whole blocks and its last bytes, and what the tag tells
    apart: data and texts that differ in one part have different tags. */
module OcbDistinct {
  import opened Cbc
  import opened Collections
  import opened Ocb
  import opened OcbInPlace
  import opened OcbProgram

  ghost predicate Wide<B>(ts: seq<seq<B>>) {
    forall i :: 0 <= i < |ts| ==> |ts[i]| == 16
  }

  /** The sum of blocks. */
  ghost function Total<B>(xor: (B, B) -> B, zero: B, ts: seq<seq<B>>): (c: seq<B>)
    requires Wide(ts)
    ensures |c| == 16
  {
    if |ts| == 0 then Zeros(zero, 16) else Xor(xor, Total(xor, zero, ts[..|ts| - 1]), ts[|ts| - 1])
  }

  lemma XorFront<B(!new)>(xor: (B, B) -> B, a: seq<B>, b: seq<B>, c: seq<B>)
    requires XorOk(xor) && |a| == |b| == |c| && Xor(xor, c, a) == Xor(xor, c, b)
    ensures a == b
  {
    forall k | 0 <= k < |a| ensures a[k] == b[k] {
      assert Xor(xor, c, a)[k] == xor(c[k], a[k]) && Xor(xor, c, b)[k] == xor(c[k], b[k]);
      assert xor(c[k], xor(c[k], a[k])) == a[k] && xor(c[k], xor(c[k], b[k])) == b[k];
    }
  }

  /** Sums that differ in one term differ. */
  lemma SumApart<B(!new)>(xor: (B, B) -> B, u: seq<B>, v: seq<B>, x: seq<B>, y: seq<B>)
    requires XorOk(xor) && |u| == |v| == |x| == |y| && (u == v <==> x != y)
    ensures Xor(xor, u, x) != Xor(xor, v, y)
  {
    if Xor(xor, u, x) == Xor(xor, v, y) {
      if u == v {
        XorFront(xor, x, y, u);
      } else {
        XorBack(xor, u, v, x);
      }
    }
  }

  /** ts and us are of one length and agree but for term k. */
  ghost predicate OnlyAt<T>(ts: seq<T>, us: seq<T>, k: nat) {
    k < |ts| == |us| && ts[k] != us[k] && forall i :: 0 <= i < |ts| && i != k ==> ts[i] == us[i]
  }

  lemma {:induction false} TotalApart<B(!new)>(xor: (B, B) -> B, zero: B, ts: seq<seq<B>>, us: seq<seq<B>>, k: nat)
    requires XorOk(xor) && Wide(ts) && Wide(us) && OnlyAt(ts, us, k)
    ensures Total(xor, zero, ts) != Total(xor, zero, us)
  {
    var n := |ts| - 1;
    if k == n {
      assert ts[..n] == us[..n];
    } else {
      TotalApart(xor, zero, ts[..n], us[..n], k);
    }
    SumApart(xor, Total(xor, zero, ts[..n]), Total(xor, zero, us[..n]), ts[n], us[n]);
  }

  /** A sum of blocks and one more, if there is one more. */
  lemma TotalOf<B>(xor: (B, B) -> B, zero: B, ts: seq<seq<B>>, j: nat, sum: seq<B>, c: seq<B>)
    requires Wide(ts) && j <= |ts| <= j + 1 && Wide(ts[..j]) && sum == Total(xor, zero, ts[..j])
    requires c == if |ts| == j then sum else Xor(xor, sum, ts[j])
    ensures c == Total(xor, zero, ts)
  {
    if |ts| == j { assert ts[..j] == ts; }
  }

  // ----- parts of a message -----

  /** The whole blocks and, if there are more bytes, those. */
  function Parts<B>(p: seq<B>): (ps: seq<seq<B>>)
    ensures |ps| == (|p| + 15) / 16
  {
    seq((|p| + 15) / 16, i requires 0 <= i < (|p| + 15) / 16 => p[16 * i..Min(16 * i + 16, |p|)])
  }

  function Min(a: nat, b: nat): nat {
    if a <= b then a else b
  }

  lemma WholePart<B>(p: seq<B>, i: nat)
    requires 16 * i + 16 <= |p|
    ensures Parts(p)[i] == Block(p, i)
  {
  }

  lemma LastPart<B>(p: seq<B>)
    requires |p| % 16 != 0
    ensures Parts(p)[|p| / 16] == Tail(p)
  {
  }

  /** A part filled up to a block. */
  function Full<B>(zero: B, mark: B, x: seq<B>): (b: seq<B>)
    requires |x| <= 16
    ensures |b| == 16
  {
    if |x| == 16 then x else Marked(zero, mark, x)
  }

  lemma FullApart<B>(zero: B, mark: B, x: seq<B>, y: seq<B>)
    requires |x| == |y| <= 16 && x != y
    ensures Full(zero, mark, x) != Full(zero, mark, y)
  {
    assert Full(zero, mark, x)[..|x|] == x && Full(zero, mark, y)[..|x|] == y;
  }

  /** The parts of a message, each filled up. */
  function FullParts<B>(zero: B, mark: B, p: seq<B>, n: nat): (bs: seq<seq<B>>)
    requires n <= |Parts(p)|
    ensures |bs| == n && forall i :: 0 <= i < n ==> |bs[i]| == 16
  {
    seq(n, i requires 0 <= i < n => Full(zero, mark, Parts(p)[i]))
  }

  lemma {:induction false} SumIsTotal<B>(xor: (B, B) -> B, zero: B, mark: B, p: seq<B>, j: nat)
    requires 16 * j <= |p|
    ensures Sum(xor, zero, p, j) == Total(xor, zero, FullParts(zero, mark, p, j))
  {
    var f := FullParts(zero, mark, p, j);
    if j > 0 {
      SumIsTotal(xor, zero, mark, p, j - 1);
      assert f[..j - 1] == FullParts(zero, mark, p, j - 1);
      assert f[j - 1] == Block(p, j - 1);
    }
  }

  /** The checksum is the sum of the parts, */
  lemma ChecksumIsTotal<W(!new), B(!new)>(o: Mode<W, B>, p: seq<B>)
    ensures Checksum(o, p) == Total(o.s.xor, o.s.zero, FullParts(o.s.zero, o.mark, p, |Parts(p)|))
  {
    var j, f := |p| / 16, FullParts(o.s.zero, o.mark, p, |Parts(p)|);
    SumIsTotal(o.s.xor, o.s.zero, o.mark, p, j);
    assert f[..j] == FullParts(o.s.zero, o.mark, p, j);
    if |p| % 16 != 0 { LastPart(p); }
    TotalOf(o.s.xor, o.s.zero, f, j, Sum(o.s.xor, o.s.zero, p, j), Checksum(o, p));
  }

  /** and messages of one length that differ in one part have different checksums. */
  lemma ChecksumApart<W(!new), B(!new)>(o: Mode<W, B>, p: seq<B>, q: seq<B>, k: nat)
    requires XorOk(o.s.xor) && |p| == |q| && OnlyAt(Parts(p), Parts(q), k)
    ensures Checksum(o, p) != Checksum(o, q)
  {
    var z, m, n := o.s.zero, o.mark, |Parts(p)|;
    ChecksumIsTotal(o, p);
    ChecksumIsTotal(o, q);
    FullApart(z, m, Parts(p)[k], Parts(q)[k]);
    TotalApart(o.s.xor, z, FullParts(z, m, p, n), FullParts(z, m, q, n), k);
  }

  // ----- associated data -----

  /** The offset of part i of n bytes. */
  ghost function PartOffset<W(!new), B(!new)>(o: Mode<W, B>, start: seq<B>, n: nat, i: nat): (b: seq<B>)
    requires Usable(o) && |start| == 16
    ensures |b| == 16
  {
    if 16 * i + 16 <= n then Offset(o, start, i + 1) else LastOffset(o, start, n)
  }

  /** What a part adds to the hash. */
  ghost function Image<W(!new), B(!new)>(o: Mode<W, B>, x: seq<B>, n: nat, i: nat): (b: seq<B>)
    requires Usable(o) && |x| <= 16
    ensures |b| == 16
  {
    o.s.enc(Xor(o.s.xor, Full(o.s.zero, o.mark, x), PartOffset(o, Zeros(o.s.zero, 16), n, i)))
  }

  lemma ImageApart<W(!new), B(!new)>(o: Mode<W, B>, x: seq<B>, y: seq<B>, n: nat, i: nat)
    requires Usable(o) && Good(o.s) && |x| == |y| <= 16 && x != y
    ensures Image(o, x, n, i) != Image(o, y, n, i)
  {
    FullApart(o.s.zero, o.mark, x, y);
    EncSame(o.s, Full(o.s.zero, o.mark, x), Full(o.s.zero, o.mark, y), PartOffset(o, Zeros(o.s.zero, 16), n, i));
  }

  ghost function Images<W(!new), B(!new)>(o: Mode<W, B>, a: seq<B>, n: nat): (bs: seq<seq<B>>)
    requires Usable(o) && n <= |Parts(a)|
    ensures |bs| == n && forall i :: 0 <= i < n ==> |bs[i]| == 16
  {
    seq(n, i requires 0 <= i < n => Image(o, Parts(a)[i], |a|, i))
  }

  lemma {:induction false} HashToIsTotal<W(!new), B(!new)>(o: Mode<W, B>, a: seq<B>, j: nat)
    requires Usable(o) && 16 * j <= |a|
    ensures HashTo(o, a, j) == Total(o.s.xor, o.s.zero, Images(o, a, j))
  {
    var f := Images(o, a, j);
    if j > 0 {
      HashToIsTotal(o, a, j - 1);
      assert f[..j - 1] == Images(o, a, j - 1);
      assert Parts(a)[j - 1] == Block(a, j - 1);
    }
  }

  /** The hash is the sum of the images of the parts, */
  lemma HashIsTotal<W(!new), B(!new)>(o: Mode<W, B>, a: seq<B>)
    requires Usable(o)
    ensures Hash(o, a) == Total(o.s.xor, o.s.zero, Images(o, a, |Parts(a)|))
  {
    var j, f := |a| / 16, Images(o, a, |Parts(a)|);
    HashToIsTotal(o, a, j);
    assert f[..j] == Images(o, a, j);
    HashEnd(o, a, j);
    TotalOf(o.s.xor, o.s.zero, f, j, HashTo(o, a, j), Hash(o, a));
  }

  lemma HashEnd<W(!new), B(!new)>(o: Mode<W, B>, a: seq<B>, j: nat)
    requires Usable(o) && j == |a| / 16
    ensures Hash(o, a) == if |Parts(a)| == j then HashTo(o, a, j)
                          else Xor(o.s.xor, HashTo(o, a, j), Image(o, Parts(a)[j], |a|, j))
  {
    if |a| % 16 != 0 { LastPart(a); }
  }

  /** and data of one length that differ in one part have different hashes. */
  lemma HashApart<W(!new), B(!new)>(o: Mode<W, B>, a: seq<B>, b: seq<B>, k: nat)
    requires Usable(o) && Good(o.s) && |a| == |b| && OnlyAt(Parts(a), Parts(b), k)
    ensures Hash(o, a) != Hash(o, b)
  {
    var n := |Parts(a)|;
    HashIsTotal(o, a);
    HashIsTotal(o, b);
    ImageApart(o, Parts(a)[k], Parts(b)[k], |a|, k);
    TotalApart(o.s.xor, o.s.zero, Images(o, a, n), Images(o, b, n), k);
  }

  /** Equal, or of one length and different in one part only. */
  ghost predicate OnePart<B(!new)>(a: seq<B>, b: seq<B>) {
    |a| == |b| && (a == b || exists k: nat :: OnlyAt(Parts(a), Parts(b), k))
  }

  /** Data that agree in their whole blocks, or in all but one and in their last bytes, are such data. */
  lemma TailsPart<B(!new)>(a: seq<B>, b: seq<B>)
    requires |a| == |b| && forall j: nat :: 16 * j + 16 <= |a| ==> Block(a, j) == Block(b, j)
    ensures OnePart(a, b)
  {
    var n := |a| / 16;
    if Tail(a) == Tail(b) {
      SameByBlocks(a, b);
    } else {
      forall i | 0 <= i < |Parts(a)| && i != n ensures Parts(a)[i] == Parts(b)[i] {
        assert Parts(a)[i] == Block(a, i) && Parts(b)[i] == Block(b, i);
      }
      assert Parts(a)[n] == Tail(a) && Parts(b)[n] == Tail(b);
      assert OnlyAt(Parts(a), Parts(b), n);
    }
  }

  lemma BlockPart<B(!new)>(a: seq<B>, b: seq<B>, k: nat)
    requires |a| == |b| && Tail(a) == Tail(b)
    requires forall j: nat :: 16 * j + 16 <= |a| && j != k ==> Block(a, j) == Block(b, j)
    ensures OnePart(a, b)
  {
    if 16 * k + 16 <= |a| && Block(a, k) != Block(b, k) {
      forall i | 0 <= i < |Parts(a)| && i != k ensures Parts(a)[i] == Parts(b)[i] {
        if 16 * i + 16 <= |a| {
          assert Parts(a)[i] == Block(a, i) && Parts(b)[i] == Block(b, i);
        } else {
          assert Parts(a)[i] == Tail(a) && Parts(b)[i] == Tail(b);
        }
      }
      assert Parts(a)[k] == Block(a, k) && Parts(b)[k] == Block(b, k);
      assert OnlyAt(Parts(a), Parts(b), k);
    } else {
      SameByBlocks(a, b);
    }
  }

  /** Main result on the hash: such data have the same hash exactly if they are the same. */
  lemma SameHash<W(!new), B(!new)>(o: Mode<W, B>, a: seq<B>, b: seq<B>)
    requires Usable(o) && Good(o.s) && OnePart(a, b)
    ensures Hash(o, a) == Hash(o, b) <==> a == b
  {
    if a != b {
      var k: nat :| OnlyAt(Parts(a), Parts(b), k);
      HashApart(o, a, b, k);
    }
  }

  /** So data that agree in their whole blocks have the same hash exactly if they agree in their last bytes, */
  lemma HashTail<W(!new), B(!new)>(o: Mode<W, B>, a: seq<B>, b: seq<B>)
    requires Usable(o) && Good(o.s) && |a| == |b|
    requires forall j: nat :: 16 * j + 16 <= |a| ==> Block(a, j) == Block(b, j)
    ensures Hash(o, a) == Hash(o, b) <==> Tail(a) == Tail(b)
  {
    TailsPart(a, b);
    SameHash(o, a, b);
    if Tail(a) == Tail(b) { SameByBlocks(a, b); }
  }

  /** and data that differ in one whole block only have different hashes. */
  lemma HashBlock<W(!new), B(!new)>(o: Mode<W, B>, a: seq<B>, b: seq<B>, k: nat)
    requires Usable(o) && Good(o.s) && |a| == |b| && Tail(a) == Tail(b)
    requires 16 * k + 16 <= |a| && Block(a, k) != Block(b, k)
    requires forall j: nat :: 16 * j + 16 <= |a| && j != k ==> Block(a, j) == Block(b, j)
    ensures Hash(o, a) != Hash(o, b)
  {
    BlockPart(a, b, k);
    SameHash(o, a, b);
  }

  /** The tag of a message depends on the data as their hash does. */
  lemma TagOfData<W(!new), B(!new)>(o: Mode<W, B>, start: seq<B>, p: seq<B>, a: seq<B>, b: seq<B>)
    requires Usable(o) && Good(o.s) && |start| == 16
    ensures Tag(o, start, p, a) == Tag(o, start, p, b) <==> Hash(o, a) == Hash(o, b)
  {
    if Tag(o, start, p, a) == Tag(o, start, p, b) {
      var x := o.s.xor;
      var c := o.s.enc(Xor(x, Xor(x, Checksum(o, p), LastOffset(o, start, |p|)), LDollar(o)));
      XorFront(x, Hash(o, a), Hash(o, b), c);
    }
  }

  // ----- texts -----

  /** A text that differs in one part opens to a message that differs in that part. */
  lemma OpenApart<W(!new), B(!new)>(o: Mode<W, B>, start: seq<B>, c: seq<B>, c': seq<B>, p: seq<B>, q: seq<B>, k: nat)
    requires Usable(o) && Good(o.s) && |c| == |c'| && IsPlain(o, start, c, p) && IsPlain(o, start, c', q)
    requires OnlyAt(Parts(c), Parts(c'), k)
    ensures OnlyAt(Parts(p), Parts(q), k)
  {
    forall i: nat | i < |Parts(p)| ensures Parts(p)[i] == Parts(q)[i] <==> Parts(c)[i] == Parts(c')[i] {
      OpenPart(o, start, c, c', p, q, i);
    }
  }

  lemma OpenPart<W(!new), B(!new)>(o: Mode<W, B>, start: seq<B>, c: seq<B>, c': seq<B>, p: seq<B>, q: seq<B>, i: nat)
    requires Usable(o) && Good(o.s) && |c| == |c'| && IsPlain(o, start, c, p) && IsPlain(o, start, c', q)
    requires i < |Parts(p)|
    ensures Parts(p)[i] == Parts(q)[i] <==> Parts(c)[i] == Parts(c')[i]
  {
    if 16 * i + 16 <= |c| {
      assert OpenedAt(o, start, c, p, i) && OpenedAt(o, start, c', q, i);
      WholePart(c, i);
      WholePart(c', i);
      WholePart(p, i);
      WholePart(q, i);
      OpenedApart(o, start, Block(c, i), Block(c', i), i);
    } else {
      assert i == |c| / 16 && |c| % 16 != 0;
      OpenLast(o, start, c, c', p, q);
    }
  }

  lemma OpenLast<W(!new), B(!new)>(o: Mode<W, B>, start: seq<B>, c: seq<B>, c': seq<B>, p: seq<B>, q: seq<B>)
    requires Usable(o) && Good(o.s) && |c| == |c'| && IsPlain(o, start, c, p) && IsPlain(o, start, c', q)
    requires |c| % 16 != 0
    ensures Parts(p)[|c| / 16] == Parts(q)[|c| / 16] <==> Parts(c)[|c| / 16] == Parts(c')[|c| / 16]
  {
    LastPart(c);
    LastPart(c');
    LastPart(p);
    LastPart(q);
    PadTwice(o, start, Tail(c), |c|);
    PadTwice(o, start, Tail(c'), |c|);
  }

  lemma OpenedApart<W(!new), B(!new)>(o: Mode<W, B>, start: seq<B>, c: seq<B>, c': seq<B>, j: nat)
    requires Usable(o) && Good(o.s) && |start| == 16 && |c| == |c'| == 16
    ensures Opened(o, start, c, j) == Opened(o, start, c', j) <==> c == c'
  {
    var off := Offset(o, start, j + 1);
    var x, y := Xor(o.s.xor, c, off), Xor(o.s.xor, c', off);
    if Opened(o, start, c, j) == Opened(o, start, c', j) {
      XorBack(o.s.xor, o.s.dec(x), o.s.dec(y), off);
      EncDec(o.s, x);
      EncDec(o.s, y);
      XorBack(o.s.xor, c, c', off);
    }
  }

  /** Ciphertext, tag and associated data given to decryption differ from those of encryption in one part of the
      ciphertext at most, or in one part of the associated data at most, or in the tag only. */
  ghost predicate OneChange<B(!new)>(c: seq<B>, t: seq<B>, a: seq<B>, c': seq<B>, t': seq<B>, b: seq<B>) {
    || (t' == t && b == a && OnePart(c, c'))
    || (c' == c && t' == t && OnePart(a, b))
    || (c' == c && b == a)
  }

  lemma ChangeDecided<W(!new), B(!new)>(o: Mode<W, B>, start: seq<B>, p: seq<B>, a: seq<B>, c: seq<B>, t: seq<B>,
                                        c': seq<B>, t': seq<B>, b: seq<B>, q: seq<B>, diff: B)
    requires Usable(o) && Good(o.s) && IsCipher(o, start, p, c) && t == Tag(o, start, p, a)
    requires Verdict(o, start, c', t', b, q, diff) && OneChange(c, t, a, c', t', b)
    ensures diff == o.s.zero <==> c' == c && t' == t && b == a
    ensures diff == o.s.zero ==> q == p
  {
    if c' != c {
      TextFound(o, start, p, a, c, c', q);
    } else {
      OcbBack(o, start, p, c, q);
      if a != b { DataFound(o, start, p, a, b); }
    }
  }

  lemma Halves<B>(x: seq<B>, y: seq<B>, m: nat)
    requires m <= |x| && m <= |y|
    ensures x[..m] == y[..m] && x[m..] == y[m..] <==> x == y
  {
    assert x == x[..m] + x[m..] && y == y[..m] + y[m..];
  }

  /** Main result: after such a change decryption accepts exactly if nothing was changed. */
  lemma ChangeFound<W(!new), B(!new)>(o: Mode<W, B>, n: NonceOps<B>, nonce: seq<B>, p: seq<B>, a: seq<B>, text: seq<B>,
                                      text': seq<B>, b: seq<B>, q: seq<B>, diff: B)
    requires IsSealed(o, n, nonce, p, a, text) && Good(o.s) && |text'| == |text|
    requires OneChange(text[..|p|], text[|p|..], a, text'[..|p|], text'[|p|..], b)
    requires Decided(o, Start(o.s, n, nonce), text'[..|p|], text'[|p|..], b, q, diff)
    ensures diff == o.s.zero <==> text' == text && b == a
    ensures diff == o.s.zero ==> q == p
  {
    var m, start := |p|, Start(o.s, n, nonce);
    assert DecidedAt(o, start, text'[..m], text'[m..], b, q, diff, m);
    ChangeDecided(o, start, p, a, text[..m], text[m..], text'[..m], text'[m..], b, q, diff);
    Halves(text, text', m);
  }

  lemma DataFound<W(!new), B(!new)>(o: Mode<W, B>, start: seq<B>, p: seq<B>, a: seq<B>, b: seq<B>)
    requires Usable(o) && Good(o.s) && |start| == 16 && OnePart(a, b) && a != b
    ensures Tag(o, start, p, a) != Tag(o, start, p, b)
  {
    TagOfData(o, start, p, a, b);
    SameHash(o, a, b);
  }

  lemma TextFound<W(!new), B(!new)>(o: Mode<W, B>, start: seq<B>, p: seq<B>, a: seq<B>, c: seq<B>, c': seq<B>,
                                    q: seq<B>)
    requires Usable(o) && Good(o.s) && IsCipher(o, start, p, c) && IsPlain(o, start, c', q) && OnePart(c, c') && c != c'
    ensures Tag(o, start, p, a) != Tag(o, start, q, a)
  {
    var k: nat :| OnlyAt(Parts(c), Parts(c'), k);
    CipherOpens(o, start, p, c);
    OpenApart(o, start, c, c', p, q, k);
    ChecksumApart(o, p, q, k);
    SameTag(o, start, p, q, a);
  }

  /** A ciphertext opens to its message. */
  lemma CipherOpens<W(!new), B(!new)>(o: Mode<W, B>, start: seq<B>, p: seq<B>, c: seq<B>)
    requires Usable(o) && Good(o.s) && IsCipher(o, start, p, c)
    ensures IsPlain(o, start, c, p)
  {
    PadTwice(o, start, Tail(p), |p|);
    forall j: nat | 16 * j + 16 <= |c| ensures OpenedAt(o, start, c, p, j) {
      assert SealedAt(o, start, p, c, j);
      OpenSealed(o, start, Block(p, j), j);
    }
  }
}
