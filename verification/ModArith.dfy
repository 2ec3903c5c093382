/** Modular arithmetic on 64-bit words: bn_mod, vli_mod_add, vli_mod_sub and vli_mod_mult. */
module ModArith {
  import opened Arith
  import opened Limbs
  import opened Vli
  import opened Mult
  import opened Div

  /** The number in the first n words of a. */
  ghost function V(a: array<nat>, n: nat): nat
    requires n <= a.Length
    reads a
  {
    Seg(a[..], 0, n, W64)
  }

  ghost predicate Words(a: array<nat>)
    reads a
  {
    Digits(a[..], W64)
  }

  /** A modulus the division accepts: any but zero. */
  ghost predicate Modulus(mod: array<nat>, n: nat)
    reads mod
  {
    0 < n <= mod.Length && Words(mod) && V(mod, n) > 0
  }

  /** The same memory read as 32-bit digits. */
  method Halves(a: array<nat>, n: nat) returns (h: array<nat>)
    requires n <= a.Length && Words(a)
    ensures fresh(h) && h.Length == 2 * n && Digits(h[..], W32)
    ensures SameMemory(h[..], a[..], n)
    ensures Seg(h[..], 0, 2 * n, W32) == V(a, n)
  {
    h := new nat[2 * n](i => 0);
    var i := 0;
    while i < n
      invariant 0 <= i <= n
      invariant Digits(h[..], W32) && SameMemory(h[..], a[..], i)
    {
      h[2 * i], h[2 * i + 1] := a[i] % W32, a[i] / W32;
      i := i + 1;
    }
    SegHalves(h[..], a[..], n);
  }

  /** 32-bit digits written back as words. */
  method Join(a: array<nat>, h: array<nat>, n: nat)
    requires n <= a.Length && 2 * n == h.Length && a != h && Words(a) && Digits(h[..], W32)
    modifies a
    ensures Words(a) && V(a, n) == Seg(h[..], 0, 2 * n, W32)
    ensures forall j :: n <= j < a.Length ==> a[j] == old(a[j])
  {
    var i := 0;
    while i < n
      invariant 0 <= i <= n
      invariant Words(a) && SameMemory(h[..], a[..], i)
      invariant forall j :: n <= j < a.Length ==> a[j] == old(a[j])
    {
      a[i] := h[2 * i] + W32 * h[2 * i + 1];
      i := i + 1;
    }
    SegHalves(h[..], a[..], n);
  }

  /** The remainder on 32-bit digits; the quotient is thrown away. */
  method DigitsMod(c: array<nat>, d: array<nat>, n: nat) returns (b: array<nat>)
    requires 0 < n && c.Length == 4 * n && d.Length == 2 * n && Digits(c[..], W32) && Digits(d[..], W32)
    requires Seg(d[..], 0, 2 * n, W32) > 0
    ensures fresh(b) && b.Length == 2 * n && Digits(b[..], W32)
    ensures Seg(b[..], 0, 2 * n, W32) == Seg(c[..], 0, 4 * n, W32) % Seg(d[..], 0, 2 * n, W32)
  {
    var a := new nat[4 * n](i => 0);
    b := new nat[2 * n](i => 0);
    BnDiv(a, b, c, 4 * n, d, 2 * n);
  }

  /** result := left mod right, for a left operand of 2n words. */
  method BnMod(result: array<nat>, left: array<nat>, right: array<nat>, n: nat)
    requires n <= result.Length && 2 * n <= left.Length && Modulus(right, n)
    requires Words(result) && Words(left)
    modifies result
    ensures Words(result)
    ensures V(result, n) == old(V(left, 2 * n)) % old(V(right, n))
    ensures forall j :: n <= j < result.Length ==> result[j] == old(result[j])
  {
    var c := Halves(left, 2 * n);
    var d := Halves(right, n);
    var b := DigitsMod(c, d, n);
    Join(result, b, n);
  }

  /** result := (left * right) mod mod. */
  method ModMult(result: array<nat>, left: array<nat>, right: array<nat>, mod: array<nat>, n: nat)
    requires n <= result.Length && n <= left.Length && n <= right.Length && Modulus(mod, n)
    requires Words(result) && Words(left) && Words(right)
    modifies result
    ensures Words(result)
    ensures V(result, n) == (old(V(left, n)) * old(V(right, n))) % old(V(mod, n))
    ensures forall j :: n <= j < result.Length ==> result[j] == old(result[j])
  {
    var product := new nat[2 * n](i => 0);
    BnMult(product, left, right, n);
    BnMod(result, product, mod, n);
  }

  /** result := (left + right) mod mod, for reduced operands. */
  method ModAdd(result: array<nat>, left: array<nat>, right: array<nat>, mod: array<nat>, n: nat)
    requires n <= result.Length && n <= left.Length && n <= right.Length && n <= mod.Length && result != mod
    requires Words(result) && Words(left) && Words(right) && Words(mod)
    requires V(left, n) < V(mod, n) && V(right, n) < V(mod, n)
    modifies result
    ensures Words(result)
    ensures V(result, n) == (old(V(left, n)) + old(V(right, n))) % V(mod, n)
  {
    ghost var s, m := V(left, n) + V(right, n), V(mod, n);
    var carry := Add(W64, result, left, right, n);
    var big := carry != 0;
    if !big {
      var c := Cmp(W64, result, 0, mod, n);
      big := c >= 0;
    }
    SegBound(result[..], 0, n, W64);
    SegBound(mod[..], 0, n, W64);
    if big {
      var _ := Sub(W64, result, result, 0, mod, n);
      SegBound(result[..], 0, n, W64);
      DivModUnique(s, m, 1, s - m);
    } else {
      DivModUnique(s, m, 0, s);
    }
  }

  /** result := (left - right) mod mod, for reduced operands. */
  method ModSub(result: array<nat>, left: array<nat>, right: array<nat>, mod: array<nat>, n: nat)
    requires n <= result.Length && n <= left.Length && n <= right.Length && n <= mod.Length && result != mod
    requires Words(result) && Words(left) && Words(right) && Words(mod)
    requires V(left, n) < V(mod, n) && V(right, n) < V(mod, n)
    modifies result
    ensures Words(result)
    ensures V(result, n) == (old(V(left, n)) - old(V(right, n))) % V(mod, n)
  {
    ghost var s, m := V(left, n) - V(right, n), V(mod, n);
    var borrow := Sub(W64, result, left, 0, right, n);
    SegBound(result[..], 0, n, W64);
    SegBound(mod[..], 0, n, W64);
    if borrow != 0 {
      var _ := Add(W64, result, result, mod, n);
      SegBound(result[..], 0, n, W64);
      DivModUnique(s, m, -1, s + m);
    } else {
      DivModUnique(s, m, 0, s);
    }
  }
}
