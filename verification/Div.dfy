/** Long division on 32-bit digits: vli_sub_digit_mult, bn_digit_bits and bn_div. */
module Div {
  import opened Arith
  import opened Limbs
  import opened Vli

  /** A difference of two digits that wrapped exceeds the largest digit less the subtrahend, and only then. */
  lemma Borrows(x: nat, y: nat)
    requires x < W32 && y < W32
    ensures (x - y) % W32 > W32 - 1 - y <==> x < y
    ensures (x - y) % W32 == x - y + if x < y then W32 else 0
  {
  }

  /** Two digits subtracted with the borrow tests of the source. */
  method SubTwice(x: nat, borrow: nat, low: nat) returns (word: nat, out: nat)
    requires x < W32 && borrow < W32 && low < W32
    ensures word < W32 && out <= 2 && x + out * W32 == word + borrow + low
  {
    word := (x - borrow) % W32;
    Borrows(x, borrow);
    out := if word > W32 - 1 - borrow then 1 else 0;
    Borrows(word, low);
    word := (word - low) % W32;
    if word > W32 - 1 - low {
      out := out + 1;
    }
  }

  /** One digit of x - borrow - c * d, with no borrow lost. */
  method SubMulWord(x: nat, borrow: nat, c: nat, d: nat) returns (word: nat, out: nat)
    requires x < W32 && borrow < W32 && c < W32 && d < W32
    ensures word < W32 && out < W32
    ensures x + out * W32 == word + borrow + c * d
  {
    DigitProductBound(c, d);
    var product := c * d;
    var rl, rh := product % W32, product / W32 % W32;
    word, out := SubTwice(x, borrow, rl);
    SubMulFits(x, borrow, product, rl, rh, word, out);
    out := (out + rh) % W32;
  }

  lemma SubMulFits(x: nat, borrow: nat, product: nat, low: nat, high: nat, word: nat, out: nat)
    requires x < W32 && borrow < W32 && word < W32 && product <= (W32 - 1) * (W32 - 1)
    requires low == product % W32 && high == product / W32 % W32
    requires x + out * W32 == word + borrow + low
    ensures x + (out + high) * W32 == word + borrow + product && out + high < W32
  {
    assert product == low + W32 * high;
  }

  /** acc - c * d over the first i digits, with a borrow still to take. */
  ghost predicate MulDiff(z: seq<nat>, acc: seq<nat>, off: nat, d: seq<nat>, i: nat, c: nat, borrow: nat)
    requires off + i <= |z| && off + i <= |acc| && i <= |d|
  {
    Seg(z, off, i, W32) + c * Seg(d, 0, i, W32) == Seg(acc, off, i, W32) + borrow * Pow(W32, i)
  }

  lemma MulDiffValue(z: int, a: int, s: int, c: int, k: int, k': int, w: int, p: int, x: int, d: int)
    requires z + c * s == a + k * p && x + k' * W32 == w + k + c * d
    ensures (z + w * p) + c * (s + d * p) == (a + x * p) + k' * (W32 * p)
  {
    assert (x + k' * W32) * p == (w + k + c * d) * p;
    assert (w + k + c * d) * p == w * p + k * p + c * (d * p);
    assert (x + k' * W32) * p == x * p + k' * (W32 * p);
  }

  lemma MulDiffDigit(before: seq<nat>, z: seq<nat>, acc: seq<nat>, off: nat, d: seq<nat>, i: nat, c: nat, k: nat,
                     k': nat)
    requires off + i < |z| && |before| == |z| && off + i < |acc| && i < |d|
    requires before[off + i := z[off + i]] == z && MulDiff(before, acc, off, d, i, c, k)
    requires acc[off + i] + k' * W32 == z[off + i] + k + c * d[i]
    ensures MulDiff(z, acc, off, d, i + 1, c, k')
  {
    SegUpdate(before, z, off, i, W32);
    MulDiffValue(Seg(z, off, i, W32), Seg(acc, off, i, W32), Seg(d, 0, i, W32), c, k, k',
                 z[off + i], Pow(W32, i), acc[off + i], d[i]);
  }

  /** a[off..off+n] := a[off..off+n] - c * d, returning the borrow. */
  method SubDigitMult(a: array<nat>, off: nat, c: nat, d: array<nat>, n: nat) returns (borrow: nat)
    requires off + n <= a.Length && n <= d.Length && a != d && c < W32
    requires Digits(a[..], W32) && Digits(d[..], W32)
    modifies a
    ensures borrow < W32 && Digits(a[..], W32)
    ensures MulDiff(a[..], old(a[..]), off, d[..], n, c, borrow)
    ensures forall j :: 0 <= j < a.Length && (j < off || off + n <= j) ==> a[j] == old(a[j])
  {
    borrow := 0;
    if c == 0 {
      return;
    }
    ghost var acc := a[..];
    var i := 0;
    while i < n
      invariant 0 <= i <= n && borrow < W32
      invariant Digits(a[..], W32)
      invariant forall j :: 0 <= j < a.Length && (j < off || off + i <= j) ==> a[j] == acc[j]
      invariant MulDiff(a[..], acc, off, d[..], i, c, borrow)
    {
      ghost var before := a[..];
      var word, out := SubMulWord(a[off + i], borrow, c, d[i]);
      a[off + i] := word;
      assert before[off + i := word] == a[..];
      MulDiffDigit(before, a[..], acc, off, d[..], i, c, borrow, out);
      borrow, i := out, i + 1;
    }
  }

  /** Number of bits of a digit: 2^(i-1) <= a < 2^i, and none for zero. */
  method DigitBits(a: nat) returns (i: nat)
    requires a < W32
    ensures i <= 32 && a < Pow(2, i) && (if a == 0 then i == 0 else Pow(2, i) <= 2 * a)
  {
    i := 0;
    var x := a;
    while i < 32 && x != 0
      invariant 0 <= i <= 32 && Pow(2, i) > 0 && x == a / Pow(2, i)
      invariant i > 0 ==> Pow(2, i) <= 2 * a
    {
      HalfAgain(a, Pow(2, i));
      i, x := i + 1, x / 2;
    }
    Pow2At32();
    BelowPower(a, Pow(2, i));
  }

  lemma HalfAgain(a: nat, p: nat)
    requires p > 0 && a / p > 0
    ensures a / p / 2 == a / (2 * p) && 2 * p <= 2 * a
  {
    var h := a / p;
    var r := a % p + p * (h % 2);
    assert a == (h / 2) * (2 * p) + r by {
      assert h == 2 * (h / 2) + h % 2;
      assert p * h == p * (2 * (h / 2)) + p * (h % 2);
      assert p * (2 * (h / 2)) == (h / 2) * (2 * p);
    }
    assert p * (h % 2) <= p;
    DivModUnique(a, 2 * p, h / 2, r);
    MulMono(p, 1, h);
  }

  lemma BelowPower(a: nat, p: nat)
    requires p > 0 && (a / p == 0 || a < p)
    ensures a < p
  {
  }

  lemma Pow2At32()
    ensures Pow(2, 32) == W32
  {
    PowAdd(2, 16, 16);
    PowAdd(2, 8, 8);
    PowAdd(2, 4, 4);
    PowAdd(2, 2, 2);
  }

  /** The number in the k + 1 digits a division step works on. */
  ghost function Window(cc: seq<nat>, i: nat, k: nat): nat
    requires i + k < |cc|
  {
    Seg(cc, i, k + 1, W32)
  }

  lemma WindowSplit(cc: seq<nat>, i: nat, k: nat)
    requires i + k < |cc|
    ensures Window(cc, i, k) == Seg(cc, i, k, W32) + cc[i + k] * Pow(W32, k)
  {
  }

  /** The estimated digit never exceeds the true one. */
  lemma EstimateValue(ai: nat, t: nat, hi: nat, lo: nat, low: nat, dlow: nat, p: nat)
    requires ai * (t + 1) <= hi * W32 + lo && dlow <= p
    ensures ai * (dlow + t * p) <= low + lo * p + hi * (W32 * p)
  {
    MulMono(ai, dlow + t * p, (t + 1) * p);
    assert ai * ((t + 1) * p) == (ai * (t + 1)) * p;
    MulMono(p, ai * (t + 1), hi * W32 + lo);
    assert p * (hi * W32 + lo) == hi * (W32 * p) + lo * p;
  }

  /** The quotient of the top digits by one more than the divisor's top digit, without dividing by 2^32. */
  method Guess(hi: nat, lo: nat, t: nat) returns (full: nat)
    requires hi < W32 && lo < W32 && t < W32
    ensures full * (t + 1) <= hi * W32 + lo
  {
    if t == W32 - 1 {
      full := hi;
    } else {
      var tmp := lo + hi * W32;
      full := tmp / (t + 1);
      DivMod(tmp, t + 1);
    }
  }

  /** A number kept to 32 bits. */
  method Truncate(full: nat, ghost d: nat, ghost x: nat) returns (ai: nat)
    requires full * d <= x
    ensures ai < W32 && ai * d <= x
  {
    ai := full % W32;
    DivMod(full, W32);
    MulMono(d, ai, full);
  }

  /** The digit guessed from the two top digits of the window and the top digit of the divisor. */
  method Estimate(cc: array<nat>, i: nat, dd: array<nat>, k: nat, t: nat) returns (ai: nat)
    requires 0 < k <= dd.Length && i + k < cc.Length && t == dd[k - 1]
    requires Digits(cc[..], W32) && Digits(dd[..], W32)
    ensures ai < W32 && ai * Seg(dd[..], 0, k, W32) <= Window(cc[..], i, k)
  {
    var full := Guess(cc[i + k], cc[i + k - 1], t);
    SegBound(dd[..], 0, k - 1, W32);
    WindowTop(cc[..], i, k);
    EstimateValue(full, t, cc[i + k], cc[i + k - 1], Seg(cc[..], i, k - 1, W32), Seg(dd[..], 0, k - 1, W32),
      Pow(W32, k - 1));
    ai := Truncate(full, Seg(dd[..], 0, k, W32), Window(cc[..], i, k));
  }

  lemma WindowTop(cc: seq<nat>, i: nat, k: nat)
    requires 0 < k && i + k < |cc|
    ensures Window(cc, i, k) == Seg(cc, i, k - 1, W32) + cc[i + k - 1] * Pow(W32, k - 1)
                                + cc[i + k] * (W32 * Pow(W32, k - 1))
  {
    assert Pow(W32, k) == W32 * Pow(W32, k - 1);
    WindowSplit(cc, i, k);
  }

  lemma BorrowFits(low: int, low': int, hi: int, borrow: int, m: int, p: int)
    requires low' + m == low + borrow * p && m <= low + hi * p && 0 <= low' < p
    ensures borrow <= hi && low' + (hi - borrow) * p + m == low + hi * p
  {
    assert (hi - borrow) * p == hi * p - borrow * p;
    if borrow > hi {
      MulMono(p, hi - borrow, -1);
      assert false;
    }
  }

  /** Taking a borrow from the top digit of a window keeps its value and never wraps. */
  lemma TakeBorrow(c0: seq<nat>, c1: seq<nat>, i: nat, k: nat, m: nat, borrow: nat, top: nat)
    requires i + k < |c0| && |c1| == |c0| && Digits(c1, W32) && Digits(c0, W32) && borrow < W32
    requires Seg(c1, i, k, W32) + m == Seg(c0, i, k, W32) + borrow * Pow(W32, k)
    requires c1[i + k] == c0[i + k] && m <= Window(c0, i, k)
    requires top == (c0[i + k] - borrow) % W32
    ensures Window(c1[i + k := top], i, k) + m == Window(c0, i, k)
  {
    SegBound(c1, i, k, W32);
    BorrowFits(Seg(c0, i, k, W32), Seg(c1, i, k, W32), c0[i + k], borrow, m, Pow(W32, k));
    SegSame(c1, i, c1[i + k := top], i, k, W32);
    DivModUnique(c0[i + k] - borrow, W32, 0, c0[i + k] - borrow);
  }

  /** Window minus ai times the divisor. */
  method SubMultiple(cc: array<nat>, i: nat, dd: array<nat>, k: nat, ai: nat)
    requires i + k < cc.Length && k <= dd.Length && cc != dd && ai < W32
    requires Digits(cc[..], W32) && Digits(dd[..], W32)
    requires ai * Seg(dd[..], 0, k, W32) <= Window(cc[..], i, k)
    modifies cc
    ensures Digits(cc[..], W32)
    ensures Window(cc[..], i, k) + ai * Seg(dd[..], 0, k, W32) == old(Window(cc[..], i, k))
    ensures forall j :: 0 <= j < cc.Length && (j < i || i + k < j) ==> cc[j] == old(cc[j])
  {
    ghost var c0 := cc[..];
    var borrow := SubDigitMult(cc, i, ai, dd, k);
    ghost var c1 := cc[..];
    cc[i + k] := (cc[i + k] - borrow) % W32;
    TakeBorrow(c0, c1, i, k, ai * Seg(dd[..], 0, k, W32), borrow, cc[i + k]);
    assert cc[..] == c1[i + k := cc[i + k]];
  }

  /** Window minus the divisor. */
  method SubOnce(cc: array<nat>, i: nat, dd: array<nat>, k: nat)
    requires i + k < cc.Length && k <= dd.Length && cc != dd
    requires Digits(cc[..], W32) && Digits(dd[..], W32)
    requires Seg(dd[..], 0, k, W32) <= Window(cc[..], i, k)
    modifies cc
    ensures Digits(cc[..], W32)
    ensures Window(cc[..], i, k) + Seg(dd[..], 0, k, W32) == old(Window(cc[..], i, k))
    ensures forall j :: 0 <= j < cc.Length && (j < i || i + k < j) ==> cc[j] == old(cc[j])
  {
    ghost var c0 := cc[..];
    var borrow := Sub(W32, cc, cc, i, dd, k);
    ghost var c1 := cc[..];
    cc[i + k] := (cc[i + k] - borrow) % W32;
    TakeBorrow(c0, c1, i, k, Seg(dd[..], 0, k, W32), borrow, cc[i + k]);
    assert cc[..] == c1[i + k := cc[i + k]];
  }

  lemma TopDigit(cc: seq<nat>, i: nat, k: nat)
    requires i + k < |cc|
    ensures cc[i + k] == 0 ==> Window(cc, i, k) == Seg(cc, i, k, W32)
    ensures cc[i + k] != 0 ==> Window(cc, i, k) >= Pow(W32, k)
  {
    WindowSplit(cc, i, k);
    if cc[i + k] > 0 { MulMono(Pow(W32, k), 1, cc[i + k]); }
  }

  /** The guard of the correction loop says exactly that the window still holds the divisor. */
  method HoldsDivisor(cc: array<nat>, i: nat, dd: array<nat>, k: nat) returns (r: bool)
    requires i + k < cc.Length && k <= dd.Length
    requires Digits(cc[..], W32) && Digits(dd[..], W32)
    ensures r <==> Window(cc[..], i, k) >= Seg(dd[..], 0, k, W32)
  {
    SegBound(dd[..], 0, k, W32);
    TopDigit(cc[..], i, k);
    if cc[i + k] != 0 {
      return true;
    }
    var c := Cmp(W32, cc, i, dd, k);
    return c >= 0;
  }

  /** ai holds the low 32 bits of full. */
  ghost predicate Low(ai: nat, full: nat) {
    ai < W32 && exists h: nat :: Makes(full, ai, h)
  }

  ghost predicate Makes(full: nat, ai: nat, h: nat) {
    full == ai + h * W32
  }

  method Increment(ai: nat, ghost full: nat) returns (next: nat)
    requires Low(ai, full)
    ensures Low(next, full + 1)
  {
    ghost var h: nat :| Makes(full, ai, h);
    next := (ai + 1) % W32;
    assert if ai + 1 == W32 then Makes(full + 1, 0, h + 1) else Makes(full + 1, ai + 1, h);
  }

  /** The next quotient digit, and the window reduced below the divisor. A quotient of more than 32 bits leaves its low
      32 bits; full is all of it. */
  method DivStep(cc: array<nat>, i: nat, dd: array<nat>, k: nat, t: nat) returns (ai: nat, ghost full: nat)
    requires 0 < k <= dd.Length && i + k < cc.Length && cc != dd && t == dd[k - 1]
    requires Digits(cc[..], W32) && Digits(dd[..], W32) && Seg(dd[..], 0, k, W32) > 0
    modifies cc
    ensures Digits(cc[..], W32) && Low(ai, full)
    ensures Window(cc[..], i, k) < Seg(dd[..], 0, k, W32)
    ensures Window(cc[..], i, k) + full * Seg(dd[..], 0, k, W32) == old(Window(cc[..], i, k))
    ensures forall j :: 0 <= j < cc.Length && (j < i || i + k < j) ==> cc[j] == old(cc[j])
  {
    ghost var d := Seg(dd[..], 0, k, W32);
    ai := Estimate(cc, i, dd, k, t);
    full := ai;
    assert Makes(full, ai, 0);
    SubMultiple(cc, i, dd, k, ai);
    var more := HoldsDivisor(cc, i, dd, k);
    while more
      invariant Digits(cc[..], W32) && Low(ai, full)
      invariant d == Seg(dd[..], 0, k, W32)
      invariant more <==> Window(cc[..], i, k) >= d
      invariant Window(cc[..], i, k) + full * d == old(Window(cc[..], i, k))
      invariant forall j :: 0 <= j < cc.Length && (j < i || i + k < j) ==> cc[j] == old(cc[j])
      decreases Window(cc[..], i, k)
    {
      assert (full + 1) * d == full * d + d;
      ai := Increment(ai, full);
      full := full + 1;
      SubOnce(cc, i, dd, k);
      more := HoldsDivisor(cc, i, dd, k);
    }
  }

  lemma NothingOut(z: nat, carry: nat, p: nat, v: nat)
    requires z + carry * p == v && v < p
    ensures carry == 0
  {
    if carry >= 1 { MulMono(p, 1, carry); }
  }

  /** Shifting the divisor left by the unused bits of its top digit drops no bit. */
  lemma NormalizedDivisor(d: seq<nat>, k: nat, p: nat, q: nat, z: nat, carry: nat)
    requires 0 < k <= |d| && Digits(d, W32) && d[k - 1] < p && q * p == W32
    requires z + carry * Pow(W32, k) == q * Seg(d, 0, k, W32)
    ensures carry == 0
  {
    var w := Pow(W32, k - 1);
    SegBound(d, 0, k - 1, W32);
    OrderValue(Seg(d, 0, k - 1, W32), w, d[k - 1], p);
    QuotientTop(Seg(d, 0, k, W32), p, q, w);
    NothingOut(z, carry, Pow(W32, k), q * Seg(d, 0, k, W32));
  }

  lemma QuotientTop(x: nat, p: nat, q: nat, w: nat)
    requires x < p * w && q * p == W32
    ensures q * x < W32 * w
  {
    if q == 0 { assert false; }
    MulMono(q, x + 1, p * w);
    assert q * (p * w) == (q * p) * w;
    assert q * (x + 1) == q * x + q;
  }

  /** The first window lies below the shifted divisor. */
  lemma FirstWindow(cc: seq<nat>, m: nat, d: seq<nat>, k: nat, q: nat)
    requires 0 < k <= m && |cc| == m + 1 && Digits(cc, W32) && cc[m] < q
    requires k <= |d| && d[k - 1] > 0
    ensures Seg(cc, m - k + 1, k, W32) < q * Seg(d, 0, k, W32)
  {
    var w := Pow(W32, k - 1);
    SegBound(cc, m - k + 1, k - 1, W32);
    OrderValue(Seg(cc, m - k + 1, k - 1, W32), w, cc[m], q);
    MulMono(w, 1, d[k - 1]);
    MulMono(q, w, Seg(d, 0, k, W32));
  }

  /** Between steps: quotient digits above j are final, the rest of the dividend is what remains, and below the divisor
      once the first digit is known. */
  ghost predicate Divided(c0: nat, dv: nat, a: seq<nat>, cc: seq<nat>, j: nat, m: nat, k: nat)
    requires j + k <= m + 1 == |cc| && m <= |a|
  {
    && c0 == Seg(a, 0, m, W32) * dv + Seg(cc, 0, m + 1, W32)
    && (j + k <= m ==> Seg(cc, j, k, W32) < dv)
    && (forall l :: 0 <= l < j && l < m ==> a[l] == 0)
    && (forall l :: j + k <= l <= m ==> cc[l] == 0)
  }

  /** Only the first window can hold more than 2^32 - 1 divisors. */
  lemma DigitFits(c0: nat, dv: nat, a: seq<nat>, cc: seq<nat>, i: nat, m: nat, k: nat, full: nat)
    requires i + 1 + k <= m + 1 == |cc| && m <= |a| && Digits(cc, W32)
    requires Divided(c0, dv, a, cc, i + 1, m, k) && full * dv <= Window(cc, i, k)
    requires i + 1 + k <= m || Seg(cc, i + 1, k, W32) < dv
    ensures full < W32
  {
    SegHead(cc, i, k + 1, W32);
    if full >= W32 { MulMono(dv, W32, full); }
  }

  lemma {:induction false} PutDigit(a: seq<nat>, i: nat, m: nat, ai: nat)
    requires i < m <= |a| && a[i] == 0
    ensures Seg(a[i := ai], 0, m, W32) == Seg(a, 0, m, W32) + ai * Pow(W32, i)
  {
    if i == m - 1 {
      SegSame(a, 0, a[i := ai], 0, i, W32);
    } else {
      PutDigit(a, i, m - 1, ai);
    }
  }

  /** Replacing k + 1 digits changes a number by the change of the window, weighed. */
  lemma {:induction false} ReplaceWindow(cc0: seq<nat>, cc1: seq<nat>, i: nat, n: nat, k: nat, diff: nat)
    requires i + k < n <= |cc0| == |cc1|
    requires Window(cc1, i, k) + diff == Window(cc0, i, k)
    requires forall j :: 0 <= j < n && (j < i || i + k < j) ==> cc1[j] == cc0[j]
    ensures Seg(cc1, 0, n, W32) + Pow(W32, i) * diff == Seg(cc0, 0, n, W32)
  {
    if n == i + k + 1 {
      SegSplit(cc0, 0, i, k + 1, W32);
      SegSplit(cc1, 0, i, k + 1, W32);
      SegSame(cc0, 0, cc1, 0, i, W32);
      ReplaceValue(Pow(W32, i), Window(cc0, i, k), Window(cc1, i, k), diff);
    } else {
      ReplaceWindow(cc0, cc1, i, n - 1, k, diff);
    }
  }

  lemma ReplaceValue(p: int, w: int, w': int, diff: int)
    requires w' + diff == w
    ensures p * w' + p * diff == p * w
  {
  }

  lemma DividedValue(c0: int, av: int, dv: int, x: int, x': int, p: int, full: int, ai: int, h: int)
    requires c0 == av * dv + x && x' + p * (full * dv) == x && full == ai + h * W32
    ensures c0 == (av + ai * p) * dv + x' + h * ((W32 * p) * dv)
  {
    assert (av + ai * p) * dv == av * dv + p * (ai * dv);
    assert full * dv == ai * dv + h * (W32 * dv);
    assert p * (full * dv) == p * (ai * dv) + h * ((W32 * p) * dv);
  }

  lemma NextValue(c0: nat, dv: nat, a0: seq<nat>, cc0: seq<nat>, cc1: seq<nat>, i: nat, m: nat, k: nat, full: nat,
                  ai: nat, h: nat)
      returns (c1: nat)
    requires i + k <= m && m + 1 == |cc0| && |cc1| == |cc0| && i < m <= |a0| && a0[i] == 0 && Makes(full, ai, h)
    requires c0 == Seg(a0, 0, m, W32) * dv + Seg(cc0, 0, m + 1, W32)
    requires Window(cc1, i, k) + full * dv == Window(cc0, i, k)
    requires forall j :: 0 <= j < |cc0| && (j < i || i + k < j) ==> cc1[j] == cc0[j]
    ensures c1 == Seg(a0[i := ai], 0, m, W32) * dv + Seg(cc1, 0, m + 1, W32)
    ensures Accounted(c0, c1, h, Pow(W32, i + 1), dv)
  {
    ReplaceWindow(cc0, cc1, i, m + 1, k, full * dv);
    PutDigit(a0, i, m, ai);
    DividedValue(c0, Seg(a0, 0, m, W32), dv, Seg(cc0, 0, m + 1, W32), Seg(cc1, 0, m + 1, W32), Pow(W32, i), full, ai,
      h);
    c1 := Seg(a0[i := ai], 0, m, W32) * dv + Seg(cc1, 0, m + 1, W32);
  }

  lemma RestBelow(cc: seq<nat>, i: nat, k: nat, dv: nat)
    requires i + k < |cc| && Window(cc, i, k) < dv <= Pow(W32, k)
    ensures cc[i + k] == 0 && Seg(cc, i, k, W32) < dv
  {
    TopDigit(cc, i, k);
  }

  /** One more digit; what the digit could not hold is taken off the dividend accounted for. */
  lemma NextDigit(c0: nat, dv: nat, a0: seq<nat>, cc0: seq<nat>, cc1: seq<nat>, i: nat, m: nat, k: nat, full: nat,
                  ai: nat, h: nat)
      returns (c1: nat)
    requires 0 < k && i + 1 + k <= m + 1 == |cc0| && |cc1| == |cc0| && m <= |a0| && Makes(full, ai, h)
    requires Divided(c0, dv, a0, cc0, i + 1, m, k)
    requires Window(cc1, i, k) < dv <= Pow(W32, k) && Window(cc1, i, k) + full * dv == Window(cc0, i, k)
    requires forall j :: 0 <= j < |cc0| && (j < i || i + k < j) ==> cc1[j] == cc0[j]
    ensures Accounted(c0, c1, h, Pow(W32, i + 1), dv) && Divided(c1, dv, a0[i := ai], cc1, i, m, k)
  {
    c1 := NextValue(c0, dv, a0, cc0, cc1, i, m, k, full, ai, h);
    RestBelow(cc1, i, k, dv);
  }

  /** What the digits of the quotient leave out: over times the place above them. */
  ghost predicate Accounted(c0: nat, c1: nat, over: nat, place: nat, dv: nat) {
    c0 == c1 + over * (place * dv)
  }

  /** What went over the digits: only the first digit can. */
  lemma AccountNext(c0: nat, c1: nat, next: nat, over: nat, h: nat, place: nat, place': nat, dv: nat)
    requires Accounted(c0, c1, over, place, dv) && Accounted(c1, next, h, place', dv)
    requires h == 0 || (over == 0 && place == place')
    ensures Accounted(c0, next, over + h, place, dv)
  {
  }

  /** The loop body: digit i. */
  method DivDigit(a: array<nat>, cc: array<nat>, m: nat, dd: array<nat>, k: nat, t: nat, i: nat, ghost c1: nat)
      returns (ghost next: nat, ghost h: nat)
    requires 0 < k && i + k <= m && cc.Length == m + 1 && dd.Length == k && m <= a.Length && t == dd[k - 1]
    requires a != cc && a != dd && cc != dd
    requires Digits(a[..], W32) && Digits(cc[..], W32) && Digits(dd[..], W32) && Seg(dd[..], 0, k, W32) > 0
    requires Divided(c1, Seg(dd[..], 0, k, W32), a[..], cc[..], i + 1, m, k)
    modifies a, cc
    ensures Digits(a[..], W32) && Digits(cc[..], W32)
    ensures Divided(next, Seg(dd[..], 0, k, W32), a[..], cc[..], i, m, k)
    ensures Accounted(c1, next, h, Pow(W32, i + 1), Seg(dd[..], 0, k, W32))
    ensures i + k < m || old(Seg(cc[..], i + 1, k, W32)) < Seg(dd[..], 0, k, W32) ==> h == 0
    ensures a[..] == old(a[..])[i := a[i]]
  {
    ghost var dv, a0, cc0 := Seg(dd[..], 0, k, W32), a[..], cc[..];
    SegBound(dd[..], 0, k, W32);
    var ai, full := DivStep(cc, i, dd, k, t);
    ghost var high: nat :| Makes(full, ai, high);
    h := high;
    if i + k < m || Seg(cc0, i + 1, k, W32) < dv {
      DigitFits(c1, dv, a0, cc0, i, m, k, full);
    }
    next := NextDigit(c1, dv, a0, cc0, cc[..], i, m, k, full, ai, h);
    a[i] := ai;
    assert a[..] == a0[i := ai];
  }

  /** The quotient digits, highest first; cc is left holding the remainder. */
  method DivLoop(a: array<nat>, cc: array<nat>, m: nat, dd: array<nat>, k: nat, ghost c0: nat)
      returns (ghost c1: nat, ghost over: nat)
    requires 0 < k <= m && cc.Length == m + 1 && dd.Length == k && m <= a.Length
    requires a != cc && a != dd && cc != dd
    requires Digits(a[..], W32) && Digits(cc[..], W32) && Digits(dd[..], W32) && Seg(dd[..], 0, k, W32) > 0
    requires Divided(c0, Seg(dd[..], 0, k, W32), a[..], cc[..], m - k + 1, m, k)
    modifies a, cc
    ensures Digits(a[..], W32) && Digits(cc[..], W32)
    ensures Divided(c1, Seg(dd[..], 0, k, W32), a[..], cc[..], 0, m, k)
    ensures Accounted(c0, c1, over, Pow(W32, m - k + 1), Seg(dd[..], 0, k, W32))
    ensures old(Seg(cc[..], m - k + 1, k, W32)) < Seg(dd[..], 0, k, W32) ==> over == 0
    ensures forall j :: m - k < j < a.Length ==> a[j] == old(a[j])
  {
    ghost var dv := Seg(dd[..], 0, k, W32);
    var t := dd[k - 1];
    c1, over := c0, 0;
    var i := m - k + 1;
    while i > 0
      invariant 0 <= i <= m - k + 1
      invariant Digits(a[..], W32) && Digits(cc[..], W32)
      invariant t == dd[k - 1] && dv == Seg(dd[..], 0, k, W32)
      invariant Digits(dd[..], W32)
      invariant Divided(c1, dv, a[..], cc[..], i, m, k)
      invariant i == m - k + 1 ==> over == 0 && cc[..] == old(cc[..])
      invariant Accounted(c0, c1, over, Pow(W32, m - k + 1), dv)
      invariant old(Seg(cc[..], m - k + 1, k, W32)) < dv ==> over == 0
      invariant forall j :: m - k < j < a.Length ==> a[j] == old(a[j])
    {
      i := i - 1;
      ghost var next, h := DivDigit(a, cc, m, dd, k, t, i, c1);
      AccountNext(c0, c1, next, over, h, Pow(W32, m - k + 1), Pow(W32, i + 1), dv);
      c1, over := next, over + h;
    }
  }

  /** The shifted operands: cc is q times the dividend, dd is q times the divisor. */
  method Normalize(c: array<nat>, m: nat, d: array<nat>, k: nat)
      returns (q: nat, p: nat, cc: array<nat>, dd: array<nat>)
    requires 0 < k <= d.Length && k <= m <= c.Length
    requires Digits(c[..], W32) && Digits(d[..], W32)
    ensures q > 0 && p > 0 && q * p == W32
    ensures fresh(cc) && fresh(dd) && cc != dd && cc.Length == m + 1 && dd.Length == k
    ensures Digits(cc[..], W32) && Digits(dd[..], W32) && cc[m] < q
    ensures Seg(cc[..], 0, m + 1, W32) == q * Seg(c[..], 0, m, W32)
    ensures Seg(dd[..], 0, k, W32) == q * Seg(d[..], 0, k, W32)
  {
    q, p := ShiftFor(d[k - 1]);
    cc := ShiftedDividend(c, m, q, p);
    dd := new nat[k](i => 0);
    var carry := LShift(W32, q, p, dd, d, k);
    NormalizedDivisor(d[..], k, p, q, Seg(dd[..], 0, k, W32), carry);
  }

  /** The shift that brings the top digit's highest bit to the top, or the next digit to the top when it is zero:
      q = 2^shift, p = 2^(32 - shift). */
  method ShiftFor(top: nat) returns (q: nat, p: nat)
    requires top < W32
    ensures 0 < q <= W32 && p > 0 && q * p == W32 && top < p
  {
    var bits := DigitBits(top);
    q, p := Pow(2, 32 - bits), Pow(2, bits);
    PowPos(2, 32 - bits);
    PowPos(2, bits);
    PowAdd(2, 32 - bits, bits);
    Pow2At32();
    MulMono(q, 1, p);
  }

  /** q times the dividend, in one digit more. */
  method ShiftedDividend(c: array<nat>, m: nat, q: nat, p: nat) returns (cc: array<nat>)
    requires m <= c.Length && Digits(c[..], W32) && 0 < q <= W32 && p > 0 && q * p == W32
    ensures fresh(cc) && cc.Length == m + 1 && Digits(cc[..], W32) && cc[m] < q
    ensures Seg(cc[..], 0, m + 1, W32) == q * Seg(c[..], 0, m, W32)
  {
    cc := new nat[m + 1](i => 0);
    var top := LShift(W32, q, p, cc, c, m);
    ghost var low := cc[..];
    cc[m] := top;
    SegSame(low, 0, cc[..], 0, m, W32);
  }

  lemma RemainderValue(c: int, d: int, a: int, q: int, r: int, b: int, rem: int)
    requires q > 0 && q * c == a * (q * d) + r && 0 <= r < q * d
    requires r == q * b + rem && 0 <= rem < q
    ensures c == a * d + b && 0 <= b < d
  {
    assert a * (q * d) == q * (a * d);
    var x := c - a * d - b;
    assert q * x == rem;
    if x >= 1 { MulMono(q, 1, x); assert false; }
    if x <= -1 { MulMono(q, x, -1); assert false; }
    if b >= d { MulMono(q, d, b); assert false; }
    if b < 0 { MulMono(q, b, -1); assert false; }
  }

  /** With the part that overflows the quotient's digits, the division is exact. */
  lemma QuotientValue(c: int, d: int, a: int, over: int, place: int, q: int, c1: int, r: int, b: int, rem: int)
    requires q > 0 && q * c == c1 + over * (place * (q * d)) && c1 == a * (q * d) + r && 0 <= r < q * d
    requires r == q * b + rem && 0 <= rem < q
    ensures c == (a + over * place) * d + b && 0 <= b < d
  {
    assert (a + over * place) * (q * d) == a * (q * d) + over * (place * (q * d));
    RemainderValue(c, d, a + over * place, q, r, b, rem);
  }

  lemma QuotientDigits(c: nat, d: nat, a: nat, over: nat, place: nat, b: nat)
    requires c == (a + over * place) * d + b && b < d && a < place
    ensures c % d == b && c / d % place == a && (over == 0 ==> c / d == a)
  {
    DivModUnique(c, d, a + over * place, b);
    DivModUnique(a + over * place, place, over, a);
  }

  /** bn_div for every dividend and every divisor but zero: b := c mod d, and a := c / d as far as the digits of a that
      the program computes go, which is all of c / d if the divisor's top digit is nonzero. */
  method BnDiv(a: array<nat>, b: array<nat>, c: array<nat>, m: nat, d: array<nat>, k: nat)
    requires 0 < k <= d.Length && 2 * k <= m <= c.Length && m <= a.Length && k <= b.Length
    requires a != b && a != c && a != d
    requires Digits(a[..], W32) && Digits(b[..], W32) && Digits(c[..], W32) && Digits(d[..], W32)
    requires Seg(d[..], 0, k, W32) > 0
    modifies a, b
    ensures Digits(a[..], W32) && Digits(b[..], W32) && Pow(W32, m - k + 1) > 0
    ensures Seg(b[..], 0, k, W32) == old(Seg(c[..], 0, m, W32)) % old(Seg(d[..], 0, k, W32))
    ensures Seg(a[..], 0, m, W32) == old(Seg(c[..], 0, m, W32)) / old(Seg(d[..], 0, k, W32)) % Pow(W32, m - k + 1)
    ensures old(d[k - 1]) != 0 ==> Seg(a[..], 0, m, W32) == old(Seg(c[..], 0, m, W32)) / old(Seg(d[..], 0, k, W32))
    ensures forall j :: m <= j < a.Length ==> a[j] == old(a[j])
    ensures forall j :: k <= j < b.Length ==> b[j] == old(b[j])
  {
    ghost var cv, dv, place := Seg(c[..], 0, m, W32), Seg(d[..], 0, k, W32), Pow(W32, m - k + 1);
    PowPos(W32, m - k + 1);
    var q, p, cc, dd := Normalize(c, m, d, k);
    MulMono(q, 1, dv);
    if d[k - 1] != 0 { FirstWindow(cc[..], m, d[..], k, q); }
    Clear(a, m);
    SegZero(a[..], 0, m, W32);
    ghost var c1, over := DivLoop(a, cc, m, dd, k, q * cv);
    TrimLeading(cc[..], k, m + 1, W32);
    TrimLeading(a[..], m - k + 1, m, W32);
    SegBound(a[..], 0, m - k + 1, W32);
    ghost var av, r := Seg(a[..], 0, m, W32), Seg(cc[..], 0, k, W32);
    var _, rem := RShift(W32, q, p, b, cc, k);
    QuotientValue(cv, dv, av, over, place, q, c1, r, Seg(b[..], 0, k, W32), rem);
    QuotientDigits(cv, dv, av, over, place, Seg(b[..], 0, k, W32));
  }

  /** Sets the first n words to zero. */
  method Clear(a: array<nat>, n: nat)
    requires n <= a.Length
    modifies a
    ensures forall j :: 0 <= j < n ==> a[j] == 0
    ensures forall j :: n <= j < a.Length ==> a[j] == old(a[j])
  {
    var i := 0;
    while i < n
      invariant 0 <= i <= n
      invariant forall j :: 0 <= j < i ==> a[j] == 0
      invariant forall j :: i <= j < a.Length ==> a[j] == old(a[j])
    {
      a[i] := 0;
      i := i + 1;
    }
  }
}
