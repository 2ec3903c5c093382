/** Abelian groups given by their operations, and multiples of an element. */
module Group {
  import opened Arith

  datatype Ops<!T> = Ops(zero: T, add: (T, T) -> T, neg: T -> T)

  // The laws are stated through one predicate each, so that they are used only where a proof names them.
  predicate AssocAt<T(==)>(g: Ops<T>, a: T, b: T, c: T) {
    g.add(g.add(a, b), c) == g.add(a, g.add(b, c))
  }

  predicate CommAt<T(==)>(g: Ops<T>, a: T, b: T) {
    g.add(a, b) == g.add(b, a)
  }

  predicate UnitAt<T(==)>(g: Ops<T>, a: T) {
    g.add(a, g.zero) == a && g.add(a, g.neg(a)) == g.zero
  }

  ghost predicate Abelian<T(!new)>(g: Ops<T>) {
    && (forall a: T, b: T, c: T :: AssocAt(g, a, b, c))
    && (forall a: T, b: T :: CommAt(g, a, b))
    && (forall a: T :: UnitAt(g, a))
  }

  function Sub<T>(g: Ops<T>, a: T, b: T): T {
    g.add(a, g.neg(b))
  }

  /** k times a. */
  function Mul<T>(g: Ops<T>, k: nat, a: T): T {
    if k == 0 then g.zero else g.add(Mul(g, k - 1, a), a)
  }

  lemma Assoc<T(!new)>(g: Ops<T>, a: T, b: T, c: T)
    requires Abelian(g)
    ensures g.add(g.add(a, b), c) == g.add(a, g.add(b, c))
  {
    assert AssocAt(g, a, b, c);
  }

  lemma Comm<T(!new)>(g: Ops<T>, a: T, b: T)
    requires Abelian(g)
    ensures g.add(a, b) == g.add(b, a)
  {
    assert CommAt(g, a, b);
  }

  lemma Unit<T(!new)>(g: Ops<T>, a: T)
    requires Abelian(g)
    ensures g.add(a, g.zero) == a && g.add(g.zero, a) == a
    ensures g.add(a, g.neg(a)) == g.zero && g.add(g.neg(a), a) == g.zero
  {
    assert UnitAt(g, a);
    Comm(g, a, g.zero);
    Comm(g, a, g.neg(a));
  }

  /** (a + b) + (c + d) regrouped as (a + c) + (b + d). */
  lemma Exchange<T(!new)>(g: Ops<T>, a: T, b: T, c: T, d: T)
    requires Abelian(g)
    ensures g.add(g.add(a, b), g.add(c, d)) == g.add(g.add(a, c), g.add(b, d))
  {
    Assoc(g, a, b, g.add(c, d));
    Assoc(g, b, c, d);
    Comm(g, b, c);
    Assoc(g, c, b, d);
    Assoc(g, a, c, g.add(b, d));
  }

  lemma {:induction false} MulAdd<T(!new)>(g: Ops<T>, j: nat, k: nat, a: T)
    requires Abelian(g)
    ensures Mul(g, j + k, a) == g.add(Mul(g, j, a), Mul(g, k, a))
  {
    if k > 0 {
      MulAdd(g, j, k - 1, a);
      assert Mul(g, j + k, a) == g.add(Mul(g, j + k - 1, a), a);
      Assoc(g, Mul(g, j, a), Mul(g, k - 1, a), a);
    } else {
      Unit(g, Mul(g, j, a));
    }
  }

  lemma {:induction false} MulSum<T(!new)>(g: Ops<T>, k: nat, a: T, b: T)
    requires Abelian(g)
    ensures Mul(g, k, g.add(a, b)) == g.add(Mul(g, k, a), Mul(g, k, b))
  {
    if k > 0 {
      MulSum(g, k - 1, a, b);
      Exchange(g, Mul(g, k - 1, a), Mul(g, k - 1, b), a, b);
    } else {
      Unit(g, g.zero);
    }
  }

  lemma {:induction false} MulMul<T(!new)>(g: Ops<T>, j: nat, k: nat, a: T)
    requires Abelian(g)
    ensures Mul(g, j * k, a) == Mul(g, j, Mul(g, k, a))
  {
    if j > 0 {
      MulMul(g, j - 1, k, a);
      assert j * k == (j - 1) * k + k;
      MulAdd(g, (j - 1) * k, k, a);
      assert Mul(g, j, Mul(g, k, a)) == g.add(Mul(g, j - 1, Mul(g, k, a)), Mul(g, k, a));
    } else {
      assert j * k == 0;
    }
  }

  lemma MulOne<T(!new)>(g: Ops<T>, a: T)
    requires Abelian(g)
    ensures Mul(g, 1, a) == a && Mul(g, 2, a) == g.add(a, a)
  {
    assert Mul(g, 1, a) == g.add(Mul(g, 0, a), a);
    Unit(g, a);
    assert Mul(g, 2, a) == g.add(Mul(g, 1, a), a);
  }

  /** Subtracting what was added. */
  lemma AddSub<T(!new)>(g: Ops<T>, a: T, b: T)
    requires Abelian(g)
    ensures Sub(g, g.add(a, b), b) == a && g.add(Sub(g, a, b), b) == a
    ensures Sub(g, g.add(a, b), a) == b
  {
    Unit(g, a);
    Unit(g, b);
    Assoc(g, a, b, g.neg(b));
    Assoc(g, a, g.neg(b), b);
    Comm(g, a, b);
    Assoc(g, b, a, g.neg(a));
  }

  /** a + b is zero exactly when a is -b, and a - b exactly when a is b. */
  lemma NegUnique<T(!new)>(g: Ops<T>, a: T, b: T)
    requires Abelian(g)
    ensures g.add(a, b) == g.zero <==> a == g.neg(b)
    ensures Sub(g, a, b) == g.zero <==> a == b
  {
    AddSub(g, a, b);
    Unit(g, b);
    Unit(g, g.neg(b));
  }

  lemma DoubleNeg<T(!new)>(g: Ops<T>, a: T)
    requires Abelian(g)
    ensures g.neg(g.neg(a)) == a
  {
    NegUnique(g, a, g.neg(a));
    Unit(g, a);
  }

  /** The multiples of t below n are nonzero. */
  ghost predicate OrderAtLeast<T(!new)>(g: Ops<T>, t: T, n: nat) {
    forall m: nat :: 0 < m < n ==> Mul(g, m, t) != g.zero
  }

  ghost predicate HasOrder<T(!new)>(g: Ops<T>, t: T, n: nat) {
    n > 0 && Mul(g, n, t) == g.zero && OrderAtLeast(g, t, n)
  }

  lemma {:induction false} MulZero<T(!new)>(g: Ops<T>, k: nat)
    requires Abelian(g)
    ensures Mul(g, k, g.zero) == g.zero
  {
    Unit(g, g.zero);
    if k > 0 { MulZero(g, k - 1); }
  }

  lemma MulReduce<T(!new)>(g: Ops<T>, t: T, n: nat, q: nat, r: nat)
    requires Abelian(g) && Mul(g, n, t) == g.zero
    ensures Mul(g, q * n + r, t) == Mul(g, r, t)
  {
    MulMul(g, q, n, t);
    MulZero(g, q);
    MulAdd(g, q * n, r, t);
    Unit(g, Mul(g, r, t));
  }

  lemma OrderRest<T(!new)>(g: Ops<T>, t: T, n: nat, q: nat, r: nat)
    requires Abelian(g) && HasOrder(g, t, n) && r < n
    ensures Mul(g, q * n + r, t) == g.zero <==> r == 0
  {
    MulReduce(g, t, n, q, r);
  }

  /** A multiple is zero exactly when the order divides its factor. */
  lemma OrderDivides<T(!new)>(g: Ops<T>, t: T, n: nat, m: nat)
    requires Abelian(g) && HasOrder(g, t, n)
    ensures Mul(g, m, t) == g.zero <==> m % n == 0
  {
    DivMod(m, n);
    OrderRest(g, t, n, m / n, m % n);
  }

  /** Multiples of an element of order n are equal, or opposite, as their factors are modulo n. */
  lemma MulEqual<T(!new)>(g: Ops<T>, a: T, n: nat, i: nat, j: nat)
    requires Abelian(g) && HasOrder(g, a, n)
    ensures Mul(g, i, a) == Mul(g, j, a) <==> i % n == j % n
    ensures Mul(g, i, a) == g.neg(Mul(g, j, a)) <==> (i + j) % n == 0
  {
    MulAdd(g, i, j, a);
    NegUnique(g, Mul(g, i, a), Mul(g, j, a));
    OrderDivides(g, a, n, i + j);
    if i <= j { MulLess(g, a, n, i, j); } else { MulLess(g, a, n, j, i); }
  }

  lemma MulLess<T(!new)>(g: Ops<T>, a: T, n: nat, i: nat, j: nat)
    requires Abelian(g) && HasOrder(g, a, n) && i <= j
    ensures Mul(g, i, a) == Mul(g, j, a) <==> i % n == j % n
  {
    MulAdd(g, i, j - i, a);
    AddSub(g, Mul(g, i, a), Mul(g, j - i, a));
    NegUnique(g, Mul(g, j, a), Mul(g, i, a));
    OrderDivides(g, a, n, j - i);
    CongIffMod(j, i, n);
  }
}
