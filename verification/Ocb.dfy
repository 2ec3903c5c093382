/** Offset codebook mode as defined in section 4 of RFC 7253, and what it keeps: the round trip, and a table of
    offsets long enough for every index. The programs are in OcbProgram. */
module Ocb {
  import opened Arith
  import opened Cbc
  import opened Collections

  /** The suite, doubling of a block, the byte 0x80 and bitwise or. */
  datatype Mode<!W, !B> = Mode(s: Suite<W, B>, double: seq<B> -> seq<B>, mark: B, or: (B, B) -> B)

  ghost predicate Usable<W(!new), B(!new)>(o: Mode<W, B>) {
    Keyed(o.s) && forall b: seq<B> :: |b| == 16 ==> |o.double(b)| == 16
  }

  // ----- section 4.1: key-dependent blocks -----

  ghost function LStar<W(!new), B(!new)>(o: Mode<W, B>): (b: seq<B>)
    requires Usable(o)
    ensures |b| == 16
  {
    o.s.enc(Zeros(o.s.zero, 16))
  }

  ghost function LDollar<W(!new), B(!new)>(o: Mode<W, B>): (b: seq<B>)
    requires Usable(o)
    ensures |b| == 16
  {
    o.double(LStar(o))
  }

  ghost function L<W(!new), B(!new)>(o: Mode<W, B>, i: nat): (b: seq<B>)
    requires Usable(o)
    ensures |b| == 16
  {
    o.double(if i == 0 then LDollar(o) else L(o, i - 1))
  }

  ghost function TimesDoubled<W(!new), B(!new)>(o: Mode<W, B>, b: seq<B>, n: nat): (d: seq<B>)
    requires Usable(o) && |b| == 16
    ensures |d| == 16
    decreases n
  {
    if n == 0 then b else TimesDoubled(o, o.double(b), n - 1)
  }

  /** Block i of the table is the zero block enciphered and doubled i + 2 times. */
  lemma {:induction false} TableDoubled<W(!new), B(!new)>(o: Mode<W, B>, i: nat)
    requires Usable(o)
    ensures L(o, i) == TimesDoubled(o, o.s.enc(Zeros(o.s.zero, 16)), i + 2)
  {
    var z := o.s.enc(Zeros(o.s.zero, 16));
    if i == 0 {
      assert TimesDoubled(o, z, 2) == TimesDoubled(o, o.double(z), 1) == TimesDoubled(o, o.double(o.double(z)), 0);
    } else {
      TableDoubled(o, i - 1);
      TimesDoubledLast(o, z, i + 1);
    }
  }

  lemma {:induction false} TimesDoubledLast<W(!new), B(!new)>(o: Mode<W, B>, b: seq<B>, n: nat)
    requires Usable(o) && |b| == 16
    ensures TimesDoubled(o, b, n + 1) == o.double(TimesDoubled(o, b, n))
    decreases n
  {
    if n > 0 { TimesDoubledLast(o, o.double(b), n - 1); }
  }

  /** Trailing zero bits, and the position of the highest bit. */
  function Ntz(k: nat): nat
    requires k > 0
  {
    if k % 2 == 1 then 0 else 1 + Ntz(k / 2)
  }

  function Log2(k: nat): nat
    requires k > 0
  {
    if k == 1 then 0 else 1 + Log2(k / 2)
  }

  /** The first is the exponent of two in k, */
  lemma {:induction false} NtzPower(k: nat)
    requires k > 0
    ensures exists m: nat :: OddTimes(k, Ntz(k), m)
  {
    if k % 2 == 1 {
      assert OddTimes(k, Ntz(k), k / 2);
    } else {
      NtzPower(k / 2);
      var m: nat :| OddTimes(k / 2, Ntz(k / 2), m);
      TwiceOdd(k / 2, Ntz(k / 2), m);
      assert OddTimes(k, Ntz(k), m);
    }
  }

  ghost predicate OddTimes(k: nat, e: nat, m: nat) {
    k == Pow(2, e) * (2 * m + 1)
  }

  lemma TwiceOdd(k: nat, e: nat, m: nat)
    requires OddTimes(k, e, m)
    ensures OddTimes(2 * k, e + 1, m)
  {
    var p, d := Pow(2, e), 2 * m + 1;
    assert (2 * p) * d == 2 * (p * d);
  }

  /** and the second that of the largest power of two up to k. */
  lemma {:induction false} Log2Power(k: nat)
    requires k > 0
    ensures Pow(2, Log2(k)) <= k < Pow(2, Log2(k) + 1)
  {
    if k > 1 { Log2Power(k / 2); }
  }

  lemma {:induction false} NtzLog(k: nat)
    requires k > 0
    ensures Ntz(k) <= Log2(k)
  {
    if k % 2 == 0 { NtzLog(k / 2); }
  }

  lemma {:induction false} Log2Mono(j: nat, k: nat)
    requires 0 < j <= k
    ensures Log2(j) <= Log2(k)
  {
    if j > 1 { Log2Mono(j / 2, k / 2); }
  }

  /** How many offsets the program prepares for n blocks. */
  function TableLen(n: nat): nat {
    if n == 0 then 0 else Log2(n) + 1
  }

  /** Main result on the table: every index up to n blocks is in it. */
  lemma NtzInTable(k: nat, n: nat)
    requires 0 < k <= n
    ensures Ntz(k) < TableLen(n)
  {
    NtzLog(k);
    Log2Mono(k, n);
  }

  /** Whichever of message and associated data is longer, the table serves both; it is empty when neither has a
      whole block. */
  function TableFor(message: nat, data: nat): nat {
    if message > data then TableLen(message / 16) else TableLen(data / 16)
  }

  lemma TableServes(message: nat, data: nat, k: nat)
    requires 0 < k && (k <= message / 16 || k <= data / 16)
    ensures Ntz(k) < TableFor(message, data)
  {
    var n := if message > data then message / 16 else data / 16;
    assert message / 16 <= n && data / 16 <= n;
    NtzInTable(k, n);
  }

  lemma TableEmpty(message: nat, data: nat)
    ensures TableFor(message, data) == 0 <==> message < 16 && data < 16
  {
  }

  // ----- sections 4.2 and 4.3: offsets, blocks, tag -----

  /** Offset_i from Offset_0. */
  ghost function Offset<W(!new), B(!new)>(o: Mode<W, B>, start: seq<B>, i: nat): (b: seq<B>)
    requires Usable(o) && |start| == 16
    ensures |b| == 16
  {
    if i == 0 then start else Xor(o.s.xor, Offset(o, start, i - 1), L(o, Ntz(i)))
  }

  ghost function LastOffset<W(!new), B(!new)>(o: Mode<W, B>, start: seq<B>, n: nat): (b: seq<B>)
    requires Usable(o) && |start| == 16
    ensures |b| == 16
  {
    var off := Offset(o, start, n / 16);
    if n % 16 == 0 then off else Xor(o.s.xor, off, LStar(o))
  }

  function Block<B>(p: seq<B>, j: nat): (b: seq<B>)
    requires 16 * j + 16 <= |p|
    ensures |b| == 16
  {
    p[16 * j..16 * j + 16]
  }

  function Tail<B>(p: seq<B>): (b: seq<B>)
    ensures |b| == |p| % 16
  {
    p[|p| - |p| % 16..]
  }

  /** Whole block j, counted from 0, under its offset. */
  ghost function Sealed<W(!new), B(!new)>(o: Mode<W, B>, start: seq<B>, b: seq<B>, j: nat): (c: seq<B>)
    requires Usable(o) && |start| == 16 && |b| == 16
    ensures |c| == 16
  {
    var off := Offset(o, start, j + 1);
    Xor(o.s.xor, o.s.enc(Xor(o.s.xor, b, off)), off)
  }

  ghost function Opened<W(!new), B(!new)>(o: Mode<W, B>, start: seq<B>, c: seq<B>, j: nat): (b: seq<B>)
    requires Usable(o) && |start| == 16 && |c| == 16
    ensures |b| == 16
  {
    var off := Offset(o, start, j + 1);
    Xor(o.s.xor, o.s.dec(Xor(o.s.xor, c, off)), off)
  }

  /** The last bytes, xored with a pad, which is its own inverse. */
  ghost function Padded<W(!new), B(!new)>(o: Mode<W, B>, start: seq<B>, t: seq<B>, n: nat): (c: seq<B>)
    requires Usable(o) && |start| == 16 && |t| == n % 16
    ensures |c| == |t|
  {
    Xor(o.s.xor, o.s.enc(LastOffset(o, start, n))[..|t|], t)
  }

  /** Opening undoes sealing. */
  lemma OpenSealed<W(!new), B(!new)>(o: Mode<W, B>, start: seq<B>, b: seq<B>, j: nat)
    requires Usable(o) && Good(o.s) && |start| == 16 && |b| == 16
    ensures Opened(o, start, Sealed(o, start, b, j), j) == b
  {
    var off := Offset(o, start, j + 1);
    var x := Xor(o.s.xor, b, off);
    assert Xor(o.s.xor, Sealed(o, start, b, j), off) == o.s.enc(x);
    DecEnc(o.s, x);
    assert Xor(o.s.xor, x, off) == b;
  }

  lemma PadTwice<W(!new), B(!new)>(o: Mode<W, B>, start: seq<B>, t: seq<B>, n: nat)
    requires Usable(o) && Good(o.s) && |start| == 16 && |t| == n % 16
    ensures Padded(o, start, Padded(o, start, t, n), n) == t
  {
  }

  /** The xor of the whole blocks up to j. */
  ghost function Sum<B>(xor: (B, B) -> B, zero: B, p: seq<B>, j: nat): (c: seq<B>)
    requires 16 * j <= |p|
    ensures |c| == 16
  {
    if j == 0 then Zeros(zero, 16) else Xor(xor, Sum(xor, zero, p, j - 1), Block(p, j - 1))
  }

  /** A short block with 0x80 after it and zeros after that. */
  function Marked<B>(zero: B, mark: B, t: seq<B>): (b: seq<B>)
    requires |t| < 16
    ensures |b| == 16
  {
    t + [mark] + Zeros(zero, 15 - |t|)
  }

  ghost function Checksum<W(!new), B(!new)>(o: Mode<W, B>, p: seq<B>): (c: seq<B>)
    ensures |c| == 16
  {
    var sum := Sum(o.s.xor, o.s.zero, p, |p| / 16);
    if |p| % 16 == 0 then sum else Xor(o.s.xor, sum, Marked(o.s.zero, o.mark, Tail(p)))
  }

  /** HASH of the associated data: the sum over its whole blocks, then the last one. */
  ghost function HashTo<W(!new), B(!new)>(o: Mode<W, B>, a: seq<B>, j: nat): (h: seq<B>)
    requires Usable(o) && 16 * j <= |a|
    ensures |h| == 16
  {
    if j == 0 then Zeros(o.s.zero, 16)
    else Xor(o.s.xor, HashTo(o, a, j - 1), o.s.enc(Xor(o.s.xor, Block(a, j - 1), Offset(o, Zeros(o.s.zero, 16), j))))
  }

  ghost function Hash<W(!new), B(!new)>(o: Mode<W, B>, a: seq<B>): (h: seq<B>)
    requires Usable(o)
    ensures |h| == 16
  {
    var sum := HashTo(o, a, |a| / 16);
    if |a| % 16 == 0 then sum
    else
      var off := LastOffset(o, Zeros(o.s.zero, 16), |a|);
      Xor(o.s.xor, sum, o.s.enc(Xor(o.s.xor, Marked(o.s.zero, o.mark, Tail(a)), off)))
  }

  ghost function Tag<W(!new), B(!new)>(o: Mode<W, B>, start: seq<B>, p: seq<B>, a: seq<B>): (t: seq<B>)
    requires Usable(o) && |start| == 16
    ensures |t| == 16
  {
    var x := o.s.xor;
    Xor(x, o.s.enc(Xor(x, Xor(x, Checksum(o, p), LastOffset(o, start, |p|)), LDollar(o))), Hash(o, a))
  }

  // ----- the round trip -----

  /** c is the ciphertext of p, without its tag. */
  ghost predicate IsCipher<W(!new), B(!new)>(o: Mode<W, B>, start: seq<B>, p: seq<B>, c: seq<B>) {
    && Usable(o) && |start| == 16 && |c| == |p|
    && (forall j: nat :: 16 * j + 16 <= |p| ==> SealedAt(o, start, p, c, j))
    && Tail(c) == Padded(o, start, Tail(p), |p|)
  }

  ghost predicate SealedAt<W(!new), B(!new)>(o: Mode<W, B>, start: seq<B>, p: seq<B>, c: seq<B>, j: nat) {
    && Usable(o) && |start| == 16 && 16 * j + 16 <= |p| && 16 * j + 16 <= |c|
    && Block(c, j) == Sealed(o, start, Block(p, j), j)
  }

  /** p is what decryption makes of c. */
  ghost predicate IsPlain<W(!new), B(!new)>(o: Mode<W, B>, start: seq<B>, c: seq<B>, p: seq<B>) {
    && Usable(o) && |start| == 16 && |c| == |p|
    && (forall j: nat :: 16 * j + 16 <= |c| ==> OpenedAt(o, start, c, p, j))
    && Tail(p) == Padded(o, start, Tail(c), |c|)
  }

  ghost predicate OpenedAt<W(!new), B(!new)>(o: Mode<W, B>, start: seq<B>, c: seq<B>, p: seq<B>, j: nat) {
    && Usable(o) && |start| == 16 && 16 * j + 16 <= |p| && 16 * j + 16 <= |c|
    && Block(p, j) == Opened(o, start, Block(c, j), j)
  }

  lemma SameByBlocks<B>(p: seq<B>, q: seq<B>)
    requires |p| == |q| && Tail(p) == Tail(q)
    requires forall j: nat :: 16 * j + 16 <= |p| ==> Block(p, j) == Block(q, j)
    ensures p == q
  {
    forall i: nat | i < |p| ensures p[i] == q[i] {
      var j, m := i / 16, |p| - |p| % 16;
      if i < m {
        assert Block(p, j)[i - 16 * j] == Block(q, j)[i - 16 * j];
      } else {
        assert Tail(p)[i - m] == Tail(q)[i - m];
      }
    }
  }

  /** Main result: decryption gives back the message, for every length, and so the same tag. */
  lemma OcbBack<W(!new), B(!new)>(o: Mode<W, B>, start: seq<B>, p: seq<B>, c: seq<B>, q: seq<B>)
    requires Usable(o) && Good(o.s) && IsCipher(o, start, p, c) && IsPlain(o, start, c, q)
    ensures q == p
  {
    PadTwice(o, start, Tail(p), |p|);
    forall j: nat | 16 * j + 16 <= |q| ensures Block(q, j) == Block(p, j) {
      assert SealedAt(o, start, p, c, j) && OpenedAt(o, start, c, q, j);
      OpenSealed(o, start, Block(p, j), j);
    }
    SameByBlocks(q, p);
  }
}
