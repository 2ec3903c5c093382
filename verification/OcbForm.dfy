/** The definitions of section 4 of RFC 7253 in other words: the offsets by powers of two, and blocks, last bytes and
    tag as what the cipher undone makes of them. */
module OcbForm {
  import opened Arith
  import opened Cbc
  import opened Collections
  import opened Ocb
  import opened OcbBytes
  import opened OcbProgram

  /** Trailing zeros from the odd part. */
  lemma {:induction false} NtzOf(k: nat, e: nat, m: nat)
    requires k > 0 && OddTimes(k, e, m)
    ensures Ntz(k) == e
  {
    if e == 0 {
      assert k == 2 * m + 1;
    } else {
      var p, d := Pow(2, e - 1), 2 * m + 1;
      assert k == (2 * p) * d == 2 * (p * d);
      NtzOf(k / 2, e - 1, m);
    }
  }

  /** Main result on the offsets: for i = 2^e (2 m + 1) the offset of block i is that of the block before it plus the
      zero block enciphered and doubled e + 2 times. */
  lemma OffsetStep<W(!new), B(!new)>(o: Mode<W, B>, start: seq<B>, i: nat, e: nat, m: nat)
    requires Usable(o) && |start| == 16 && i > 0 && OddTimes(i, e, m)
    ensures Offset(o, start, 0) == start
    ensures Offset(o, start, i) ==
      Xor(o.s.xor, Offset(o, start, i - 1), TimesDoubled(o, o.s.enc(Zeros(o.s.zero, 16)), e + 2))
  {
    NtzOf(i, e, m);
    TableDoubled(o, e);
  }

  /** After the whole blocks comes one more, when there are bytes left. */
  lemma LastOffsetStep<W(!new), B(!new)>(o: Mode<W, B>, start: seq<B>, n: nat, q: nat, r: nat)
    requires Usable(o) && |start| == 16 && n == 16 * q + r && r < 16
    ensures LastOffset(o, start, n) ==
      if r == 0 then Offset(o, start, q) else Xor(o.s.xor, Offset(o, start, q), o.s.enc(Zeros(o.s.zero, 16)))
  {
    assert n / 16 == q && n % 16 == r;
  }

  /** The cipher undone on a sealed block, offset taken off, gives the block with the offset. */
  lemma SealedUndone<W(!new), B(!new)>(o: Mode<W, B>, start: seq<B>, b: seq<B>, j: nat)
    requires Usable(o) && Good(o.s) && |start| == 16 && |b| == 16
    ensures var off := Offset(o, start, j + 1);
      o.s.dec(Xor(o.s.xor, Sealed(o, start, b, j), off)) == Xor(o.s.xor, b, off)
  {
    var off := Offset(o, start, j + 1);
    var x := Xor(o.s.xor, b, off);
    assert Xor(o.s.xor, Sealed(o, start, b, j), off) == o.s.enc(x);
    DecEnc(o.s, x);
  }

  /** The last bytes and their ciphertext make up the pad. */
  lemma PadShown<W(!new), B(!new)>(o: Mode<W, B>, start: seq<B>, t: seq<B>, n: nat, i: nat)
    requires Usable(o) && Good(o.s) && |start| == 16 && |t| == n % 16 && i < |t|
    ensures o.s.xor(Padded(o, start, t, n)[i], t[i]) == o.s.enc(LastOffset(o, start, n))[i]
  {
  }

  /** The cipher undone on the tag, hash taken off, gives checksum, last offset and the zero block enciphered and
      doubled. */
  lemma TagUndone<W(!new), B(!new)>(o: Mode<W, B>, start: seq<B>, p: seq<B>, a: seq<B>)
    requires Usable(o) && Good(o.s) && |start| == 16
    ensures var x := o.s.xor;
      o.s.dec(Xor(x, Tag(o, start, p, a), Hash(o, a))) ==
        Xor(x, Xor(x, Checksum(o, p), LastOffset(o, start, |p|)), o.double(o.s.enc(Zeros(o.s.zero, 16))))
  {
    var x := o.s.xor;
    var c := Xor(x, Xor(x, Checksum(o, p), LastOffset(o, start, |p|)), LDollar(o));
    assert Xor(x, Tag(o, start, p, a), Hash(o, a)) == o.s.enc(c);
    DecEnc(o.s, c);
  }

  // ----- the initial offset, bit by bit -----

  /** The block of the nonce: zeros, a one, the nonce. */
  lemma NonceBytesAt(nonce: seq<bv8>, i: nat)
    requires |nonce| <= 15 && i < 16
    ensures NonceBlock(0, 1, nonce)[i] ==
      if i + |nonce| < 15 then 0 else if i + |nonce| == 15 then 1 else nonce[i - (16 - |nonce|)]
  {
  }

  /** Bit m of Ktop and what follows it: the bits of Ktop, then the sums of bits eight places apart. */
  predicate StretchBit(k: seq<bv8>, m: nat)
    requires |k| == 16 && m < 192
  {
    if m < 128 then BitAt(k, m / 8, m % 8) else BitAt(k, m / 8 - 16, m % 8) != BitAt(k, m / 8 - 15, m % 8)
  }

  lemma SumBit(a: bv8, b: bv8, m: bv8)
    requires m == 1 || m == 2 || m == 4 || m == 8 || m == 16 || m == 32 || m == 64 || m == 128
    ensures (a ^ b) & m != 0 <==> (a & m != 0 <==> b & m == 0)
  {
  }

  lemma XorBit(a: bv8, b: bv8, c: bv8, j: nat)
    requires j < 8 && c == a ^ b
    ensures Bit(c, j) == (Bit(a, j) != Bit(b, j))
  {
    SumBit(a, b, if j == 0 then 128 else if j == 1 then 64 else if j == 2 then 32 else if j == 3 then 16
                 else if j == 4 then 8 else if j == 5 then 4 else if j == 6 then 2 else 1);
  }

  lemma StretchBits(k: seq<bv8>, st: seq<bv8>, i: nat, j: nat)
    requires |k| == 16 && i < 24 && j < 8 && st == Stretch((a: bv8, b: bv8) => a ^ b, k)
    ensures BitAt(st, i, j) == StretchBit(k, 8 * i + j)
  {
    assert (8 * i + j) / 8 == i && (8 * i + j) % 8 == j;
    if i >= 16 { XorBit(k[i - 16], k[i - 15], st[i], j); }
  }

  /** Main result: bit m of the window that begins at bit b is bit m + b of the stretch. */
  lemma WindowOfKey(k: seq<bv8>, b: nat, i: nat, j: nat)
    requires |k| == 16 && b < 64 && i < 16 && j < 8
    ensures BitAt(Window(Joined, Stretch((a: bv8, b: bv8) => a ^ b, k), b), i, j) == StretchBit(k, 8 * i + j + b)
  {
    var m, st := 8 * i + j + b, Stretch((a: bv8, b: bv8) => a ^ b, k);
    WindowBits(st, b, i, j, m / 8, m % 8);
    StretchBits(k, st, m / 8, m % 8);
  }
}
