/** Schoolbook multiplication on 64-bit words: mul_64_64, vli_add_digit_mul and bn_mult. */
module Mult {
  import opened Arith
  import opened Limbs
  import opened Vli

  lemma HalvesProduct(a0: int, a1: int, b0: int, b1: int, w: int)
    ensures (a0 + a1 * w) * (b0 + b1 * w) == a0 * b0 + (a0 * b1 + a1 * b0) * w + (a1 * b1) * (w * w)
  {
  }

  /** A double word never reaches 2^128. */
  lemma ProductBound(x: nat, y: nat)
    requires x < W64 && y < W64
    ensures x * y <= (W64 - 1) * (W64 - 1)
  {
    MulMono(x, y, W64 - 1);
    MulMono(W64 - 1, x, W64 - 1);
  }

  /** A sum of two words that wrapped is smaller than either of them, and only then. */
  lemma Wraps(x: nat, y: nat)
    requires x < W64 && y < W64
    ensures (x + y) % W64 < y <==> x + y >= W64
    ensures (x + y) % W64 == x + y - if x + y >= W64 then W64 else 0
  {
  }

  /** The middle column of the four half products, with its carry c, placed in two words. */
  lemma MulWideSum(product: nat, m0: nat, m1: nat, m2: nat, m3: nat, o2: nat, c: nat)
    requires product == m0 + (m1 + m2) * W32 + m3 * (W32 * W32)
    requires product <= (W64 - 1) * (W64 - 1)
    requires o2 < W64 && m2 + m0 / W32 + m1 == o2 + c * W64
    ensures var lo := m0 % W32 + (o2 * W32) % W64; var hi := m3 + c * W32 + o2 / W32;
            lo < W64 && hi < W64 && lo + W64 * hi == product
  {
    assert o2 * W32 == (o2 % W32) * W32 + (o2 / W32) * W64;
    DivModUnique(o2 * W32, W64, o2 / W32, (o2 % W32) * W32);
  }

  /** The 128-bit product of two words from four 32-bit products. */
  method MulWide(left: nat, right: nat) returns (low: nat, high: nat)
    requires left < W64 && right < W64
    ensures low < W64 && high < W64 && low + W64 * high == left * right
  {
    var a0, a1, b0, b1 := left % W32, left / W32, right % W32, right / W32;
    assert left == a0 + a1 * W32 && right == b0 + b1 * W32;
    low, high := MulHalves(a0, a1, b0, b1, left * right);
  }

  method MulHalves(a0: nat, a1: nat, b0: nat, b1: nat, ghost product: nat) returns (low: nat, high: nat)
    requires a0 < W32 && a1 < W32 && b0 < W32 && b1 < W32
    requires product == (a0 + a1 * W32) * (b0 + b1 * W32)
    ensures low < W64 && high < W64 && low + W64 * high == product
  {
    var m0, m1, m2, m3 := a0 * b0, a0 * b1, a1 * b0, a1 * b1;
    HalvesBound(a0, a1, b0, b1, m0, m1, m2, m3, product);
    low, high := MulColumns(m0, m1, m2, m3, product);
  }

  lemma HalvesBound(a0: nat, a1: nat, b0: nat, b1: nat, m0: nat, m1: nat, m2: nat, m3: nat, product: nat)
    requires a0 < W32 && a1 < W32 && b0 < W32 && b1 < W32 && product == (a0 + a1 * W32) * (b0 + b1 * W32)
    requires m0 == a0 * b0 && m1 == a0 * b1 && m2 == a1 * b0 && m3 == a1 * b1
    ensures product == m0 + (m1 + m2) * W32 + m3 * (W32 * W32) && product <= (W64 - 1) * (W64 - 1)
    ensures m0 <= (W32 - 1) * (W32 - 1) && m1 <= (W32 - 1) * (W32 - 1) && m2 <= (W32 - 1) * (W32 - 1)
  {
    DigitProductBound(a0, b0);
    DigitProductBound(a0, b1);
    DigitProductBound(a1, b0);
    HalvesProduct(a0, a1, b0, b1, W32);
    ProductBound(a0 + a1 * W32, b0 + b1 * W32);
  }

  method MulColumns(m0: nat, m1: nat, m2: nat, m3: nat, ghost product: nat) returns (low: nat, high: nat)
    requires m0 <= (W32 - 1) * (W32 - 1) && m1 <= (W32 - 1) * (W32 - 1) && m2 <= (W32 - 1) * (W32 - 1)
    requires product == m0 + (m1 + m2) * W32 + m3 * (W32 * W32)
    requires product <= (W64 - 1) * (W64 - 1)
    ensures low < W64 && high < W64 && low + W64 * high == product
  {
    var n2 := (m2 + m0 / W32) % W64;
    var o2 := (n2 + m1) % W64;
    Wraps(n2, m1);
    var n3 := m3;
    if o2 < m1 {
      n3 := (m3 + W32) % W64;
    }
    MulWideSum(product, m0, m1, m2, m3, o2, if o2 < m1 then 1 else 0);
    low := m0 % W32 + (o2 * W32) % W64;
    high := (n3 + o2 / W32) % W64;
  }

  /** Three words added with the two carry tests of the source. */
  method AddTwice(acc: nat, carry: nat, low: nat) returns (word: nat, out: nat)
    requires acc < W64 && carry < W64 && low < W64
    ensures word < W64 && out <= 2 && acc + carry + low == word + out * W64
  {
    word := (acc + carry) % W64;
    Wraps(acc, carry);
    out := if word < carry then 1 else 0;
    Wraps(word, low);
    word := (word + low) % W64;
    if word < low {
      out := out + 1;
    }
  }

  /** One word of acc + carry + c * d, with no carry lost. */
  method MulAddWord(acc: nat, carry: nat, c: nat, d: nat) returns (word: nat, out: nat)
    requires acc < W64 && carry < W64 && c < W64 && d < W64
    ensures word < W64 && out < W64
    ensures acc + carry + c * d == word + out * W64
  {
    var low, high := MulWide(c, d);
    ProductBound(c, d);
    word, out := AddTwice(acc, carry, low);
    MulAddFits(acc, carry, c * d, low, high, word, out);
    out := (out + high) % W64;
  }

  lemma MulAddFits(acc: nat, carry: nat, product: nat, low: nat, high: nat, word: nat, c: nat)
    requires acc < W64 && carry < W64 && product <= (W64 - 1) * (W64 - 1)
    requires product == low + W64 * high && acc + carry + low == word + c * W64
    ensures acc + carry + product == word + (c + high) * W64 && c + high < W64
  {
  }

  /** acc + c * d over the first i digits, with a carry still to place. */
  ghost predicate MulAcc(z: seq<nat>, acc: seq<nat>, off: nat, d: seq<nat>, i: nat, c: nat, carry: nat)
    requires off + i <= |z| && off + i <= |acc| && i <= |d|
  {
    Seg(z, off, i, W64) + carry * Pow(W64, i) == Seg(acc, off, i, W64) + c * Seg(d, 0, i, W64)
  }

  lemma MulAccValue(z: int, a: int, s: int, c: int, k: int, k': int, w: int, p: int, x: int, d: int)
    requires z + k * p == a + c * s && x + k + c * d == w + k' * W64
    ensures (z + w * p) + k' * (W64 * p) == (a + x * p) + c * (s + d * p)
  {
    assert (x + k + c * d) * p == (w + k' * W64) * p;
    assert (x + k + c * d) * p == x * p + k * p + c * (d * p);
    assert (w + k' * W64) * p == w * p + k' * (W64 * p);
  }

  lemma MulAccDigit(before: seq<nat>, z: seq<nat>, acc: seq<nat>, off: nat, d: seq<nat>, i: nat, c: nat, k: nat,
                    k': nat)
    requires off + i < |z| && |before| == |z| && off + i < |acc| && i < |d|
    requires before[off + i := z[off + i]] == z && MulAcc(before, acc, off, d, i, c, k)
    requires acc[off + i] + k + c * d[i] == z[off + i] + k' * W64
    ensures MulAcc(z, acc, off, d, i + 1, c, k')
  {
    SegUpdate(before, z, off, i, W64);
    MulAccValue(Seg(z, off, i, W64), Seg(acc, off, i, W64), Seg(d, 0, i, W64), c, k, k',
                z[off + i], Pow(W64, i), acc[off + i], d[i]);
  }

  /** t[off..off+n] := t[off..off+n] + c * d, returning the carry. */
  method AddDigitMul(t: array<nat>, off: nat, c: nat, d: array<nat>, n: nat) returns (carry: nat)
    requires off + n <= t.Length && n <= d.Length && t != d && c < W64
    requires Digits(t[..], W64) && Digits(d[..], W64)
    modifies t
    ensures carry < W64 && Digits(t[..], W64)
    ensures MulAcc(t[..], old(t[..]), off, d[..], n, c, carry)
    ensures forall j :: 0 <= j < t.Length && (j < off || off + n <= j) ==> t[j] == old(t[j])
  {
    carry := 0;
    if c == 0 {
      return;
    }
    ghost var acc := t[..];
    var i := 0;
    while i < n
      invariant 0 <= i <= n && carry < W64
      invariant Digits(t[..], W64)
      invariant forall j :: 0 <= j < t.Length && (j < off || off + i <= j) ==> t[j] == acc[j]
      invariant MulAcc(t[..], acc, off, d[..], i, c, carry)
    {
      ghost var before := t[..];
      var word, out := MulAddWord(t[off + i], carry, c, d[i]);
      t[off + i] := word;
      assert before[off + i := word] == t[..];
      MulAccDigit(before, t[..], acc, off, d[..], i, c, carry, out);
      carry, i := out, i + 1;
    }
  }

  /** The first i rows of the product are in place, and nothing above them has been written. */
  ghost predicate Rows(t: seq<nat>, left: seq<nat>, i: nat, right: seq<nat>, k: nat)
    requires i + k <= |t| && i <= |left| && k <= |right|
  {
    && Seg(t, 0, i + k, W64) == Seg(left, 0, i, W64) * Seg(right, 0, k, W64)
    && forall j :: i + k <= j < |t| ==> t[j] == 0
  }

  lemma RowsValue(low: int, acc: int, z: int, c: int, r: int, l: int, p: int, q: int, carry: int)
    requires low + p * acc == l * r && z + carry * q == acc + c * r
    ensures low + p * (z + carry * q) == (l + c * p) * r
  {
    assert p * (acc + c * r) == p * acc + (c * p) * r;
    assert (l + c * p) * r == l * r + (c * p) * r;
  }

  lemma NextRow(t0: seq<nat>, t1: seq<nat>, t2: seq<nat>, left: seq<nat>, i: nat, right: seq<nat>, k: nat, carry: nat)
    requires i + k < |t0| && |t1| == |t0| && i < |left| && k <= |right|
    requires Rows(t0, left, i, right, k) && MulAcc(t1, t0, i, right, k, left[i], carry)
    requires forall j :: 0 <= j < |t0| && (j < i || i + k <= j) ==> t1[j] == t0[j]
    requires t2 == t1[i + k := carry]
    ensures Rows(t2, left, i + 1, right, k)
  {
    SegSplit(t0, 0, i, k, W64);
    SegSame(t0, 0, t2, 0, i, W64);
    SegSame(t1, i, t2, i, k, W64);
    SegSplit(t2, 0, i, k + 1, W64);
    RowsValue(Seg(t0, 0, i, W64), Seg(t0, i, k, W64), Seg(t1, i, k, W64), left[i],
              Seg(right, 0, k, W64), Seg(left, 0, i, W64), Pow(W64, i), Pow(W64, k), carry);
  }

  /** One more row: digit i of left times right, added in at digit i. */
  method AddRow(t: array<nat>, left: array<nat>, i: nat, right: array<nat>, k: nat)
    requires i + k < t.Length && i < left.Length && k <= right.Length && t != left && t != right
    requires Digits(t[..], W64) && Digits(left[..], W64) && Digits(right[..], W64)
    requires Rows(t[..], left[..], i, right[..], k)
    modifies t
    ensures Digits(t[..], W64) && Rows(t[..], left[..], i + 1, right[..], k)
  {
    ghost var t0 := t[..];
    var carry := AddDigitMul(t, i, left[i], right, k);
    ghost var t1 := t[..];
    assert t1[i + k] == 0;
    t[i + k] := (t[i + k] + carry) % W64;
    NextRow(t0, t1, t[..], left[..], i, right[..], k, carry);
  }

  /** The rows of the product, summed into a fresh buffer. */
  method SumRows(left: array<nat>, right: array<nat>, n: nat) returns (t: array<nat>)
    requires n <= left.Length && n <= right.Length
    requires Digits(left[..], W64) && Digits(right[..], W64)
    ensures fresh(t) && t.Length == 2 * n && Digits(t[..], W64)
    ensures Seg(t[..], 0, 2 * n, W64) == Seg(left[..], 0, n, W64) * Seg(right[..], 0, n, W64)
  {
    t := new nat[2 * n](i => 0);
    var bd := NumDigits(left, n);
    var cd := NumDigits(right, n);
    SegZero(t[..], 0, cd, W64);
    var i := 0;
    while i < bd
      invariant 0 <= i <= bd
      invariant Digits(t[..], W64)
      invariant Rows(t[..], left[..], i, right[..], cd)
    {
      AddRow(t, left, i, right, cd);
      i := i + 1;
    }
    TrimLeading(left[..], bd, n, W64);
    TrimLeading(right[..], cd, n, W64);
    TrimLeading(t[..], bd + cd, 2 * n, W64);
  }

  /** result := left * right, exactly, in twice the words. */
  method BnMult(result: array<nat>, left: array<nat>, right: array<nat>, n: nat)
    requires 2 * n <= result.Length && n <= left.Length && n <= right.Length
    requires Digits(result[..], W64) && Digits(left[..], W64) && Digits(right[..], W64)
    modifies result
    ensures Digits(result[..], W64)
    ensures Seg(result[..], 0, 2 * n, W64) == old(Seg(left[..], 0, n, W64)) * old(Seg(right[..], 0, n, W64))
    ensures forall j :: 2 * n <= j < result.Length ==> result[j] == old(result[j])
  {
    var t := SumRows(left, right, n);
    ghost var ts := t[..];
    VliSet(result, t, 2 * n);
    SegSame(ts, 0, result[..], 0, 2 * n, W64);
  }

  /** dest := src over the first n words. */
  method VliSet(dest: array<nat>, src: array<nat>, n: nat)
    requires n <= dest.Length && n <= src.Length
    modifies dest
    ensures forall j :: 0 <= j < n ==> dest[j] == old(src[j])
    ensures forall j :: n <= j < dest.Length ==> dest[j] == old(dest[j])
  {
    var i := 0;
    while i < n
      invariant 0 <= i <= n
      invariant forall j :: 0 <= j < i ==> dest[j] == old(src[j])
      invariant forall j :: i <= j < dest.Length ==> dest[j] == old(dest[j])
      invariant forall j :: i <= j < src.Length ==> src[j] == old(src[j])
    {
      dest[i] := src[i];
      i := i + 1;
    }
  }
}
