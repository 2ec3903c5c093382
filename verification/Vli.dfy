/** Word-array primitives of sign_tool/gm/big.c, over words of an arbitrary base b. */
module Vli {
  import opened Arith
  import opened Limbs

  /** Sign of left - right; the left operand may start at an offset. */
  method Cmp(b: nat, left: array<nat>, lo: nat, right: array<nat>, n: nat) returns (r: int)
    requires b > 0 && lo + n <= left.Length && n <= right.Length
    requires Digits(left[..], b) && Digits(right[..], b)
    ensures r == 0 || r == 1 || r == -1
    ensures r == 1 <==> Seg(left[..], lo, n, b) > Seg(right[..], 0, n, b)
    ensures r == -1 <==> Seg(left[..], lo, n, b) < Seg(right[..], 0, n, b)
  {
    var i := n;
    while i > 0
      invariant 0 <= i <= n
      invariant forall j :: i <= j < n ==> right[j] == left[j + lo]
    {
      i := i - 1;
      if left[lo + i] > right[i] {
        SegOrder(right[..], 0, left[..], lo, n, i, b);
        return 1;
      } else if left[lo + i] < right[i] {
        SegOrder(left[..], lo, right[..], 0, n, i, b);
        return -1;
      }
    }
    SegSame(left[..], lo, right[..], 0, n, b);
    return 0;
  }

  /** What a carry or borrow out of n digits is worth. */
  function Out(c: nat, b: nat, n: nat): nat {
    if c == 0 then 0 else Pow(b, n)
  }

  /** One word of an addition: the wrapped sum, and the source's carry test. */
  method AddWord(b: nat, l: nat, r: nat, c: nat) returns (sum: nat, c': nat)
    requires l < b && r < b && c <= 1
    ensures sum < b && c' <= 1
    ensures l + r + c == sum + if c' == 0 then 0 else b
  {
    sum := (l + r + c) % b;
    c' := c;
    if sum != l {
      c' := if sum < l then 1 else 0;
    }
    if l + r + c < b {
      DivModUnique(l + r + c, b, 0, l + r + c);
    } else {
      DivModUnique(l + r + c, b, 1, l + r + c - b);
    }
  }

  /** One word of a subtraction: the wrapped difference, and the source's borrow test. */
  method SubWord(b: nat, l: nat, r: nat, c: nat) returns (diff: nat, c': nat)
    requires l < b && r < b && c <= 1
    ensures diff < b && c' <= 1
    ensures l + (if c' == 0 then 0 else b) == diff + r + c
  {
    diff := (l - r - c) % b;
    c' := c;
    if diff != l {
      c' := if diff > l then 1 else 0;
    }
    if l - r - c >= 0 {
      DivModUnique(l - r - c, b, 0, l - r - c);
    } else {
      DivModUnique(l - r - c, b, -1, l - r - c + b);
    }
  }

  /** One more digit of a column sum l + r + c == s + c' * b, weighed by p. */
  lemma CarryDigit(l: int, r: int, c: int, s: int, c': int, b: int, p: int)
    requires l + r + c == s + c' * b
    ensures l * p + r * p + c * p == s * p + c' * (b * p)
  {
    assert (l + r + c) * p == (s + c' * b) * p;
  }

  lemma AddDigit(sum: seq<nat>, ls: seq<nat>, lo: nat, rs: seq<nat>, ro: nat, zo: nat, i: nat, b: nat,
                 c: nat, d: nat, c': nat)
    requires zo + i < |sum| && lo + i < |ls| && ro + i < |rs| && c <= 1 && c' <= 1
    requires ls[lo + i] + rs[ro + i] + c == d + if c' == 0 then 0 else b
    requires sum[zo + i] == d
    requires Seg(sum, zo, i, b) + Out(c, b, i) == Seg(ls, lo, i, b) + Seg(rs, ro, i, b)
    ensures Seg(sum, zo, i + 1, b) + Out(c', b, i + 1) == Seg(ls, lo, i + 1, b) + Seg(rs, ro, i + 1, b)
  {
    CarryDigit(ls[lo + i], rs[ro + i], c, d, c', b, Pow(b, i));
  }

  /** result := left + right, returning the carry; any of the arrays may coincide. */
  method Add(b: nat, result: array<nat>, left: array<nat>, right: array<nat>, n: nat) returns (carry: nat)
    requires n <= result.Length && n <= left.Length && n <= right.Length
    requires Digits(result[..], b) && Digits(left[..], b) && Digits(right[..], b)
    modifies result
    ensures carry <= 1 && Digits(result[..], b)
    ensures Seg(result[..], 0, n, b) + Out(carry, b, n)
         == old(Seg(left[..], 0, n, b)) + old(Seg(right[..], 0, n, b))
    ensures forall j :: n <= j < result.Length ==> result[j] == old(result[j])
  {
    ghost var ls, rs := left[..], right[..];
    carry := 0;
    var i := 0;
    while i < n
      invariant 0 <= i <= n && carry <= 1
      invariant Digits(result[..], b)
      invariant forall j :: i <= j < n ==> left[j] == ls[j] && right[j] == rs[j]
      invariant forall j :: i <= j < result.Length ==> result[j] == old(result[j])
      invariant Seg(result[..], 0, i, b) + Out(carry, b, i) == Seg(ls, 0, i, b) + Seg(rs, 0, i, b)
    {
      ghost var before := result[..];
      var sum, c := AddWord(b, left[i], right[i], carry);
      result[i] := sum;
      SegUpdate(before, result[..], 0, i, b);
      AddDigit(result[..], ls, 0, rs, 0, 0, i, b, carry, sum, c);
      carry, i := c, i + 1;
    }
  }

  /** result := left - right, returning the borrow; result and left may share an offset into one array. */
  method Sub(b: nat, result: array<nat>, left: array<nat>, lo: nat, right: array<nat>, n: nat) returns (borrow: nat)
    requires lo + n <= result.Length && lo + n <= left.Length && n <= right.Length
    requires result == right ==> lo == 0
    requires Digits(result[..], b) && Digits(left[..], b) && Digits(right[..], b)
    modifies result
    ensures borrow <= 1 && Digits(result[..], b)
    ensures Seg(result[..], lo, n, b) + old(Seg(right[..], 0, n, b))
         == old(Seg(left[..], lo, n, b)) + Out(borrow, b, n)
    ensures forall j :: 0 <= j < result.Length && (j < lo || lo + n <= j) ==> result[j] == old(result[j])
  {
    ghost var ls, rs := left[..], right[..];
    borrow := 0;
    var i := 0;
    while i < n
      invariant 0 <= i <= n && borrow <= 1
      invariant Digits(result[..], b)
      invariant forall j :: lo + i <= j < lo + n ==> left[j] == ls[j]
      invariant forall j :: i <= j < n ==> right[j] == rs[j]
      invariant forall j :: 0 <= j < result.Length && (j < lo || lo + i <= j) ==> result[j] == old(result[j])
      invariant Seg(ls, lo, i, b) + Out(borrow, b, i) == Seg(result[..], lo, i, b) + Seg(rs, 0, i, b)
    {
      ghost var before := result[..];
      var diff, c := SubWord(b, left[lo + i], right[i], borrow);
      result[lo + i] := diff;
      SegUpdate(before, result[..], lo, i, b);
      AddDigit(ls, result[..], lo, rs, 0, lo, i, b, borrow, ls[lo + i], c);
      borrow, i := c, i + 1;
    }
  }

  /** A word shifted left with a carry-in below 2^shift: no bit is lost and none overlap. */
  lemma LShiftStep(x: nat, q: nat, c: nat, carry: nat)
    requires q > 0 && c > 0 && x < q * c && carry < q
    ensures (x * q) % (q * c) + carry < q * c && x / c < q
    ensures q * x + carry == (x * q) % (q * c) + carry + (x / c) * (q * c)
  {
    var h, l := x / c, x % c;
    assert x == h * c + l;
    assert x * q == h * (q * c) + l * q;
    MulMono(q, l, c - 1);
    assert l * q <= q * c - q;
    DivModUnique(x * q, q * c, h, l * q);
    if h >= q { MulMono(c, q, h); assert false; }
  }

  /** The word (x << shift) | carry and the bits it pushes out, with q = 2^shift and c = 2^(w - shift). */
  method ShlWord(x: nat, b: nat, q: nat, c: nat, carry: nat) returns (word: nat, out: nat)
    requires q > 0 && c > 0 && b == q * c && x < b && carry < q
    ensures word < b && out < q
    ensures q * x + carry == word + out * b
  {
    LShiftStep(x, q, c, carry);
    if q == 1 { DivModUnique(x, c, 0, x); }
    word := (x * q) % b + carry;
    out := if q == 1 then 0 else x / c;
  }

  lemma ShlValue(z: int, x: int, q: int, p: int, b: int, d: int, s: int, c: int, c': int)
    requires z + c * p == q * x && q * d + c == s + c' * b
    ensures (z + s * p) + c' * (b * p) == q * (x + d * p)
  {
    assert (q * d + c) * p == (s + c' * b) * p;
    assert (s + c' * b) * p == s * p + c' * (b * p);
    assert (q * d + c) * p == q * (d * p) + c * p;
  }

  /** The digits z hold q times the digits x, with a carry c still to place. */
  ghost predicate Shl(z: seq<nat>, x: seq<nat>, i: nat, b: nat, q: nat, c: nat)
    requires i <= |z| && i <= |x|
  {
    Seg(z, 0, i, b) + c * Pow(b, i) == q * Seg(x, 0, i, b)
  }

  lemma ShlDigit(before: seq<nat>, z: seq<nat>, x: seq<nat>, i: nat, b: nat, q: nat, c: nat, c': nat)
    requires i < |z| && i < |x| && |before| == |z| && before[i := z[i]] == z
    requires Shl(before, x, i, b, q, c) && q * x[i] + c == z[i] + c' * b
    ensures Shl(z, x, i + 1, b, q, c')
  {
    SegUpdate(before, z, 0, i, b);
    ShlValue(Seg(z, 0, i, b), Seg(x, 0, i, b), q, Pow(b, i), b, x[i], z[i], c, c');
  }

  /** result := in << shift, returning the bits shifted out; q is 2^shift and c is 2^(w - shift). */
  method LShift(b: nat, q: nat, c: nat, result: array<nat>, input: array<nat>, n: nat) returns (carry: nat)
    requires q > 0 && c > 0 && b == q * c && n <= result.Length && n <= input.Length
    requires Digits(result[..], b) && Digits(input[..], b)
    modifies result
    ensures carry < q && Digits(result[..], b)
    ensures Seg(result[..], 0, n, b) + carry * Pow(b, n) == q * old(Seg(input[..], 0, n, b))
    ensures forall j :: n <= j < result.Length ==> result[j] == old(result[j])
  {
    ghost var xs := input[..];
    carry := 0;
    var i := 0;
    while i < n
      invariant 0 <= i <= n && carry < q
      invariant Digits(result[..], b)
      invariant forall j :: i <= j < n ==> input[j] == xs[j]
      invariant forall j :: i <= j < result.Length ==> result[j] == old(result[j])
      invariant Shl(result[..], xs, i, b, q, carry)
    {
      ghost var before := result[..];
      var word, out := ShlWord(input[i], b, q, c, carry);
      result[i] := word;
      assert before[i := word] == result[..];
      ShlDigit(before, result[..], xs, i, b, q, carry, out);
      carry, i := out, i + 1;
    }
  }

  lemma RShiftFits(h: nat, q: nat, c: nat, l: nat, rem: nat)
    requires q > 0 && h * q + l < q * c && rem < q
    ensures h + rem * c < q * c
  {
    if h >= c { MulMono(q, c, h); assert false; }
    MulMono(c, rem + 1, q);
  }

  /** A word shifted right with a carry-in that is a multiple of 2^(w - shift). */
  lemma RShiftStep(x: nat, q: nat, c: nat, h: nat, l: nat, rem: nat)
    requires q > 0 && c > 0 && x < q * c && rem < q
    requires x == h * q + l && l < q
    ensures h + rem * c < q * c
    ensures q * (h + rem * c) + l == x + rem * (q * c)
  {
    RShiftFits(h, q, c, l, rem);
    assert q * (h + rem * c) == h * q + rem * (q * c);
  }

  lemma RShiftCarry(x: nat, q: nat, c: nat, h: nat, l: nat)
    requires q > 0 && c > 0 && x == h * q + l && l < q
    ensures (x * c) % (q * c) == l * c
  {
    assert x * c == h * (q * c) + l * c;
    MulMono(c, l + 1, q);
    DivModUnique(x * c, q * c, h, l * c);
  }

  /** The word (x >> shift) | carry and the next carry; rem and low are the bits the carries hold. */
  method ShrWord(x: nat, b: nat, q: nat, c: nat, carry: nat, ghost rem: nat)
      returns (word: nat, out: nat, ghost low: nat)
    requires q > 0 && c > 0 && b == q * c && x < b && carry == rem * c && rem < q
    ensures word < b && low < q && out == low * c
    ensures q * word + low == x + rem * b
  {
    low := x % q;
    RShiftStep(x, q, c, x / q, low, rem);
    RShiftCarry(x, q, c, x / q, low);
    word := x / q + carry;
    out := if q == 1 then 0 else (x * c) % b;
  }

  lemma ShrValue(x: int, z: int, q: int, b: int, d: int, s: int, r: int, r': int)
    requires x == q * z + r && q * s + r' == d + r * b
    ensures d + b * x == q * (s + b * z) + r'
  {
    assert b * (q * z + r) == q * (b * z) + r * b;
  }

  /** From digit i up, the digits x are q times the digits z, plus r. */
  ghost predicate Shr(x: seq<nat>, z: seq<nat>, i: nat, n: nat, b: nat, q: nat, r: nat)
    requires i <= n <= |z| && n <= |x|
  {
    Seg(x, i, n - i, b) == q * Seg(z, i, n - i, b) + r
  }

  lemma ShrDigit(x: seq<nat>, before: seq<nat>, z: seq<nat>, i: nat, n: nat, b: nat, q: nat, r: nat, r': nat)
    requires i < n <= |z| && n <= |x| && |before| == |z| && before[i := z[i]] == z
    requires Shr(x, before, i + 1, n, b, q, r) && q * z[i] + r' == x[i] + r * b
    ensures Shr(x, z, i, n, b, q, r')
  {
    SegSame(before, i + 1, z, i + 1, n - i - 1, b);
    SegHead(x, i, n - i, b);
    SegHead(z, i, n - i, b);
    ShrValue(Seg(x, i + 1, n - i - 1, b), Seg(z, i + 1, n - i - 1, b), q, b, x[i], z[i], r, r');
  }

  /** result := in >> shift; the carry returned holds the bits shifted out in its top bits. */
  method RShift(b: nat, q: nat, c: nat, result: array<nat>, input: array<nat>, n: nat)
      returns (carry: nat, ghost rem: nat)
    requires q > 0 && c > 0 && b == q * c && n <= result.Length && n <= input.Length
    requires Digits(result[..], b) && Digits(input[..], b)
    modifies result
    ensures Digits(result[..], b) && rem < q && carry == rem * c
    ensures old(Seg(input[..], 0, n, b)) == q * Seg(result[..], 0, n, b) + rem
    ensures forall j :: n <= j < result.Length ==> result[j] == old(result[j])
  {
    ghost var xs := input[..];
    rem, carry := 0, 0;
    var i := n;
    while i > 0
      invariant 0 <= i <= n && rem < q && carry == rem * c
      invariant Digits(result[..], b)
      invariant forall j :: 0 <= j < i ==> input[j] == xs[j]
      invariant forall j :: n <= j < result.Length ==> result[j] == old(result[j])
      invariant Shr(xs, result[..], i, n, b, q, rem)
    {
      i := i - 1;
      ghost var before := result[..];
      var word, out, low := ShrWord(input[i], b, q, c, carry, rem);
      result[i] := word;
      assert before[i := word] == result[..];
      ShrDigit(xs, before, result[..], i, n, b, q, rem, low);
      carry, rem := out, low;
    }
  }

  /** Number of digits up to and including the highest nonzero one. */
  method NumDigits(s: array<nat>, n: nat) returns (k: nat)
    requires n <= s.Length
    ensures k <= n && (k > 0 ==> s[k - 1] != 0)
    ensures forall j :: k <= j < n ==> s[j] == 0
  {
    k := n;
    while k > 0 && s[k - 1] == 0
      invariant 0 <= k <= n
      invariant forall j :: k <= j < n ==> s[j] == 0
    {
      k := k - 1;
    }
  }
}
