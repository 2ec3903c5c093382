/** The operators &, | and >> of C on unsigned numbers, bit by bit, and what they are on numbers. */
module BitOps {
  import opened Arith

  predicate Bit(x: nat, k: nat) {
    if k == 0 then x % 2 == 1 else Bit(x / 2, k - 1)
  }

  function And(x: nat, y: nat): nat {
    if x == 0 || y == 0 then 0 else (x % 2) * (y % 2) + 2 * And(x / 2, y / 2)
  }

  function Or(x: nat, y: nat): nat
    decreases x + y
  {
    if x == 0 then y else if y == 0 then x else (if x % 2 == 1 || y % 2 == 1 then 1 else 0) + 2 * Or(x / 2, y / 2)
  }

  function Shr(x: nat, k: nat): nat {
    if k == 0 then x else Shr(x / 2, k - 1)
  }

  /** And and Or are the operators on every bit. */
  lemma {:induction false} AndBit(x: nat, y: nat, k: nat)
    ensures Bit(And(x, y), k) <==> Bit(x, k) && Bit(y, k)
    decreases k
  {
    if x == 0 || y == 0 {
      ZeroBit(k);
    } else {
      AndHalf(x, y);
      if k > 0 { AndBit(x / 2, y / 2, k - 1); }
    }
  }

  lemma AndHalf(x: nat, y: nat)
    requires x > 0 && y > 0
    ensures And(x, y) / 2 == And(x / 2, y / 2) && (And(x, y) % 2 == 1 <==> x % 2 == 1 && y % 2 == 1)
  {
    assert (x % 2) * (y % 2) == if x % 2 == 1 && y % 2 == 1 then 1 else 0;
  }

  lemma {:induction false} ZeroBit(k: nat)
    ensures !Bit(0, k)
  {
    if k > 0 { ZeroBit(k - 1); }
  }

  lemma OrHalf(x: nat, y: nat)
    requires x > 0 && y > 0
    ensures Or(x, y) / 2 == Or(x / 2, y / 2) && (Or(x, y) % 2 == 1 <==> x % 2 == 1 || y % 2 == 1)
  {
  }

  lemma {:induction false} OrBit(x: nat, y: nat, k: nat)
    ensures Bit(Or(x, y), k) <==> Bit(x, k) || Bit(y, k)
    decreases k
  {
    ZeroBit(k);
    if x > 0 && y > 0 {
      OrHalf(x, y);
      if k > 0 { OrBit(x / 2, y / 2, k - 1); }
    }
  }

  /** The bits of two numbers side by side. */
  lemma {:induction false} JoinBit(low: nat, high: nat, n: nat, k: nat)
    requires low < Pow(2, n)
    ensures Bit(low + Pow(2, n) * high, k) <==> if k < n then Bit(low, k) else Bit(high, k - n)
    decreases n
  {
    if n > 0 {
      var x, p := low + Pow(2, n) * high, Pow(2, n - 1);
      assert Pow(2, n) * high == 2 * (p * high);
      assert x / 2 == low / 2 + p * high && x % 2 == low % 2;
      if k > 0 { JoinBit(low / 2, high, n - 1, k - 1); }
    }
  }

  lemma {:induction false} ShrBit(x: nat, j: nat, k: nat)
    ensures Bit(Shr(x, j), k) <==> Bit(x, j + k)
    decreases j
  {
    if j > 0 { ShrBit(x / 2, j - 1, k); }
  }

  /** A mask of a power of two less one leaves the remainder. */
  lemma {:induction false} MaskPower(x: nat, k: nat)
    ensures Pow(2, k) > 0 && And(x, Pow(2, k) - 1) == x % Pow(2, k)
  {
    PowPos(2, k);
    if k == 0 {
      assert Pow(2, k) == 1;
    } else {
      var p := Pow(2, k - 1);
      MaskPower(x / 2, k - 1);
      HalfRemains(x, p);
      AndOdd(x, p - 1, x / 2 % p);
    }
  }

  lemma AndOdd(x: nat, m: nat, r: nat)
    requires And(x / 2, m) == r
    ensures And(x, 2 * m + 1) == x % 2 + 2 * r
  {
    assert (2 * m + 1) / 2 == m && (2 * m + 1) % 2 == 1;
  }

  lemma HalfRemains(x: nat, p: nat)
    requires p > 0
    ensures x / 2 / p == x / (2 * p) && x % (2 * p) == x % 2 + 2 * (x / 2 % p)
  {
    var q, r := x / 2 / p, x / 2 % p;
    DivMod(x / 2, p);
    assert x == q * (2 * p) + (2 * r + x % 2);
    DivModUnique(x, 2 * p, q, 2 * r + x % 2);
  }

  /** A shift right divides. */
  lemma {:induction false} ShrDivides(x: nat, k: nat)
    ensures Pow(2, k) > 0 && Shr(x, k) == x / Pow(2, k)
  {
    PowPos(2, k);
    if k == 0 {
      assert Pow(2, k) == 1;
    } else {
      var p := Pow(2, k - 1);
      ShrDivides(x / 2, k - 1);
      HalfRemains(x, p);
    }
  }

  /** Masking with one bit tests it, */
  lemma {:induction false} MaskBit(x: nat, k: nat)
    ensures And(x, Pow(2, k)) != 0 <==> Bit(x, k)
    decreases k
  {
    PowPos(2, k);
    ZeroBit(k);
    if k > 0 && x > 0 {
      assert Pow(2, k) == 2 * Pow(2, k - 1);
      MaskBit(x / 2, k - 1);
    }
  }

  /** and so does shifting it down. */
  lemma ShiftedBit(x: nat, k: nat)
    ensures And(Shr(x, k), 1) != 0 <==> Bit(x, k)
  {
    ShrBit(x, k, 0);
    LowBit(Shr(x, k));
  }

  lemma LowBit(x: nat)
    ensures And(x, 1) == x % 2 && Or(x, 1) == x - x % 2 + 1
  {
    assert And(x / 2, 0) == 0 && Or(x / 2, 0) == x / 2;
  }
}
