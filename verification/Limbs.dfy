/** Values of little-endian digit sequences in an arbitrary base. */
module Limbs {
  import opened Arith

  const W32: nat := 0x1_0000_0000
  const W64: nat := 0x1_0000_0000_0000_0000

  ghost predicate Digits(s: seq<nat>, b: nat) {
    forall i :: 0 <= i < |s| ==> s[i] < b
  }

  /** The number written by the n digits of s that start at index lo. */
  function Seg(s: seq<nat>, lo: nat, n: nat, b: nat): nat
    requires lo + n <= |s|
  {
    if n == 0 then 0 else Seg(s, lo, n - 1, b) + s[lo + n - 1] * Pow(b, n - 1)
  }

  lemma {:induction false} SegBound(s: seq<nat>, lo: nat, n: nat, b: nat)
    requires lo + n <= |s| && Digits(s, b) && b > 0
    ensures Seg(s, lo, n, b) < Pow(b, n)
  {
    if n > 0 {
      var p := Pow(b, n - 1);
      SegBound(s, lo, n - 1, b);
      MulMono(p, s[lo + n - 1], b - 1);
      assert p * (b - 1) == b * p - p;
    }
  }

  lemma {:induction false} SegSplit(s: seq<nat>, lo: nat, n: nat, m: nat, b: nat)
    requires lo + n + m <= |s|
    ensures Seg(s, lo, n + m, b) == Seg(s, lo, n, b) + Pow(b, n) * Seg(s, lo + n, m, b)
  {
    if m > 0 {
      SegSplit(s, lo, n, m - 1, b);
      PowAdd(b, n, m - 1);
      SplitValue(Seg(s, lo, n, b), Seg(s, lo + n, m - 1, b), s[lo + n + m - 1], Pow(b, n), Pow(b, m - 1));
    }
  }

  lemma SplitValue(y: int, x: int, d: int, p: int, q: int)
    ensures (y + p * x) + d * (p * q) == y + p * (x + d * q)
  {
  }

  lemma {:induction false} SegSame(s: seq<nat>, lo: nat, t: seq<nat>, lo': nat, n: nat, b: nat)
    requires lo + n <= |s| && lo' + n <= |t|
    requires forall j :: lo <= j < lo + n ==> s[j] == t[j - lo + lo']
    ensures Seg(s, lo, n, b) == Seg(t, lo', n, b)
  {
    if n > 0 {
      SegSame(s, lo, t, lo', n - 1, b);
      assert s[lo + n - 1] == t[lo' + n - 1];
    }
  }

  /** Writing one digit leaves the number written by the digits below it. */
  lemma SegUpdate(before: seq<nat>, after: seq<nat>, lo: nat, n: nat, b: nat)
    requires lo + n < |before| && |after| == |before|
    requires after == before[lo + n := after[lo + n]]
    ensures Seg(after, lo, n, b) == Seg(before, lo, n, b)
  {
    SegSame(before, lo, after, lo, n, b);
  }

  /** The lowest digit split off. */
  lemma SegHead(s: seq<nat>, lo: nat, n: nat, b: nat)
    requires n > 0 && lo + n <= |s|
    ensures Seg(s, lo, n, b) == s[lo] + b * Seg(s, lo + 1, n - 1, b)
  {
    SegSplit(s, lo, 1, n - 1, b);
    assert Pow(b, 1) == b * Pow(b, 0) == b;
    assert Seg(s, lo, 1, b) == Seg(s, lo, 0, b) + s[lo] * Pow(b, 0);
  }

  lemma {:induction false} SegZero(s: seq<nat>, lo: nat, n: nat, b: nat)
    requires lo + n <= |s|
    requires forall j :: lo <= j < lo + n ==> s[j] == 0
    ensures Seg(s, lo, n, b) == 0
  {
    if n > 0 {
      SegZero(s, lo, n - 1, b);
      assert s[lo + n - 1] == 0;
    }
  }

  /** A number is zero only if all its digits are. */
  lemma {:induction false} SegZeroDigits(s: seq<nat>, lo: nat, n: nat, b: nat)
    requires lo + n <= |s| && b > 0 && Seg(s, lo, n, b) == 0
    ensures forall j :: lo <= j < lo + n ==> s[j] == 0
  {
    if n > 0 {
      PowPos(b, n - 1);
      assert s[lo + n - 1] == 0;
      SegZeroDigits(s, lo, n - 1, b);
    }
  }

  /** Equal top digits aside, the first differing digit from the top decides the order. */
  lemma {:induction false} SegOrder(s: seq<nat>, lo: nat, t: seq<nat>, lo': nat, n: nat, k: nat, b: nat)
    requires lo + n <= |s| && lo' + n <= |t| && Digits(s, b) && b > 0
    requires k < n && s[lo + k] < t[lo' + k]
    requires forall j :: lo + k < j < lo + n ==> s[j] == t[j - lo + lo']
    ensures Seg(s, lo, n, b) < Seg(t, lo', n, b)
  {
    if k == n - 1 {
      SegBound(s, lo, n - 1, b);
      OrderValue(Seg(s, lo, n - 1, b), Pow(b, n - 1), s[lo + k], t[lo' + k]);
    } else {
      SegOrder(s, lo, t, lo', n - 1, k, b);
      assert s[lo + n - 1] == t[lo' + n - 1];
    }
  }

  lemma OrderValue(z: int, p: int, x: int, y: int)
    requires 0 <= z < p && x < y
    ensures z + x * p < y * p
  {
    MulMono(p, x + 1, y);
    assert p * (x + 1) == x * p + p;
  }

  /** The first n 64-bit words of a and the first 2n 32-bit digits of h are the same memory. */
  ghost predicate SameMemory(h: seq<nat>, a: seq<nat>, n: nat)
    requires 2 * n <= |h| && n <= |a|
  {
    forall j :: 0 <= j < n ==> a[j] == h[2 * j] + W32 * h[2 * j + 1]
  }

  /** Both readings of the same memory write the same number. */
  lemma {:induction false} SegHalves(h: seq<nat>, a: seq<nat>, n: nat)
    requires 2 * n <= |h| && n <= |a| && SameMemory(h, a, n)
    ensures Seg(a, 0, n, W64) == Seg(h, 0, 2 * n, W32)
  {
    if n > 0 {
      SegHalves(h, a, n - 1);
      assert a[n - 1] == h[2 * n - 2] + W32 * h[2 * n - 1];
      PackPow(n - 1);
      PackValue(h[2 * n - 2], h[2 * n - 1], Pow(W64, n - 1));
      SegTop(h, 2 * n, W32);
      SegTop(h, 2 * n - 1, W32);
    }
  }

  lemma PackValue(l: int, h: int, p: int)
    ensures (l + W32 * h) * p == l * p + h * (W32 * p)
  {
  }

  lemma SegTop(s: seq<nat>, n: nat, b: nat)
    requires 0 < n <= |s|
    ensures Seg(s, 0, n, b) == Seg(s, 0, n - 1, b) + s[n - 1] * Pow(b, n - 1)
  {
  }

  lemma PackPow(n: nat)
    ensures Pow(W32, 2 * n) == Pow(W64, n) && Pow(W32, 2 * n + 1) == W32 * Pow(W64, n)
  {
    PowMul(W32, 2, n);
  }

  lemma TrimLeading(s: seq<nat>, k: nat, n: nat, b: nat)
    requires k <= n <= |s| && forall j :: k <= j < n ==> s[j] == 0
    ensures Seg(s, 0, n, b) == Seg(s, 0, k, b)
  {
    SegSplit(s, 0, k, n - k, b);
    SegZero(s, k, n - k, b);
  }

  lemma DigitProductBound(x: nat, y: nat)
    requires x < W32 && y < W32
    ensures x * y <= (W32 - 1) * (W32 - 1)
  {
    MulMono(x, y, W32 - 1);
    MulMono(W32 - 1, x, W32 - 1);
  }
}
