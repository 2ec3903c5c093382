/** The bits of a scalar from the top down, and the multiples of one or two points they stand for. */
module Scalars {
  import opened Group

  /** k >> i. */
  function Prefix(k: nat, i: nat): nat {
    if i == 0 then k else Prefix(k, i - 1) / 2
  }

  predicate Bit(k: nat, i: nat) {
    Prefix(k, i) % 2 == 1
  }

  function NumBits(k: nat): nat {
    if k == 0 then 0 else 1 + NumBits(k / 2)
  }

  lemma {:induction false} PrefixHalf(k: nat, i: nat)
    ensures Prefix(k, i + 1) == Prefix(k / 2, i)
  {
    if i > 0 { PrefixHalf(k, i - 1); }
  }

  /** The top bit is one, and nothing lies above it. */
  lemma {:induction false} TopBit(k: nat)
    ensures k > 0 ==> Prefix(k, NumBits(k) - 1) == 1
    ensures Prefix(k, NumBits(k)) == 0
  {
    if k > 1 {
      TopBit(k / 2);
      PrefixHalf(k, NumBits(k) - 2);
      PrefixHalf(k, NumBits(k) - 1);
    } else if k == 1 {
      assert NumBits(1) == 1 + NumBits(0) && Prefix(1, 1) == Prefix(1, 0) / 2;
    }
  }

  lemma {:induction false} PrefixZero(k: nat, i: nat)
    requires NumBits(k) <= i
    ensures Prefix(k, i) == 0
  {
    if i == NumBits(k) { TopBit(k); } else { PrefixZero(k, i - 1); }
  }

  lemma {:induction false} NumBitsMono(k: nat)
    ensures NumBits(k) >= 2 <==> k >= 2
  {
    if k >= 2 { assert NumBits(k) == 1 + NumBits(k / 2) && NumBits(k / 2) == 1 + NumBits(k / 2 / 2); }
    if k == 1 { assert NumBits(1) == 1 + NumBits(0); }
  }

  /** The scalar the program computes with: a missing second bit counts as one. */
  function Effective(k: nat): (e: nat)
    ensures e >= 2
  {
    if k >= 2 then k else k + 2
  }

  lemma PrefixStep(k: nat, i: nat)
    ensures Prefix(k, i) == 2 * Prefix(k, i + 1) + Small(Bit(k, i))
  {
  }

  /** The point that a pair of bits selects: none, G, P or G + P. */
  function Pick<T>(g: Ops<T>, a: T, b: T, s: bool, t: bool): T {
    if s then (if t then g.add(a, b) else a) else if t then b else g.zero
  }

  ghost function Joint<T(!new)>(g: Ops<T>, a: T, b: T, s: nat, t: nat): T {
    g.add(Mul(g, s, a), Mul(g, t, b))
  }

  function Small(b: bool): nat {
    if b then 1 else 0
  }

  lemma PickIsJoint<T(!new)>(g: Ops<T>, a: T, b: T, s: bool, t: bool)
    requires Abelian(g)
    ensures Pick(g, a, b, s, t) == Joint(g, a, b, Small(s), Small(t))
  {
    MulOne(g, a);
    MulOne(g, b);
    Unit(g, a);
    Unit(g, b);
    Unit(g, g.zero);
  }

  lemma JointAdd<T(!new)>(g: Ops<T>, a: T, b: T, s: nat, t: nat, s': nat, t': nat)
    requires Abelian(g)
    ensures Joint(g, a, b, s + s', t + t') == g.add(Joint(g, a, b, s, t), Joint(g, a, b, s', t'))
  {
    MulAdd(g, s, s', a);
    MulAdd(g, t, t', b);
    Exchange(g, Mul(g, s, a), Mul(g, s', a), Mul(g, t, b), Mul(g, t', b));
  }

  /** r is s G + t P for the scalars cut off below bit i. */
  ghost predicate JointAt<T(!new)>(g: Ops<T>, a: T, b: T, s: nat, t: nat, i: nat, r: T) {
    r == Joint(g, a, b, Prefix(s, i), Prefix(t, i))
  }

  /** One iteration of the joint double-and-add. */
  lemma JointStep<T(!new)>(g: Ops<T>, a: T, b: T, s: nat, t: nat, i: nat, r: T, r': T)
    requires Abelian(g) && JointAt(g, a, b, s, t, i + 1, r)
    requires r' == g.add(g.add(r, r), Pick(g, a, b, Bit(s, i), Bit(t, i)))
    ensures JointAt(g, a, b, s, t, i, r')
  {
    var j, k := Prefix(s, i + 1), Prefix(t, i + 1);
    JointAdd(g, a, b, j, k, j, k);
    JointAdd(g, a, b, j + j, k + k, Small(Bit(s, i)), Small(Bit(t, i)));
    PickIsJoint(g, a, b, Bit(s, i), Bit(t, i));
    PrefixStep(s, i);
    PrefixStep(t, i);
  }

  function Max(a: nat, b: nat): nat {
    if a > b then a else b
  }

  lemma JointTop<T(!new)>(g: Ops<T>, a: T, b: T, s: nat, t: nat, n: nat)
    requires Abelian(g) && (s > 0 || t > 0) && n == Max(NumBits(s), NumBits(t))
    ensures n > 0 && JointAt(g, a, b, s, t, n - 1, Pick(g, a, b, Bit(s, n - 1), Bit(t, n - 1)))
  {
    TopPick(s, t);
    PickIsJoint(g, a, b, Bit(s, n - 1), Bit(t, n - 1));
  }

  /** At the top bit each prefix is its own bit, and one of the bits is set. */
  lemma TopPick(s: nat, t: nat)
    requires s > 0 || t > 0
    ensures var n := Max(NumBits(s), NumBits(t));
      && n > 0 && Prefix(s, n - 1) == Small(Bit(s, n - 1)) && Prefix(t, n - 1) == Small(Bit(t, n - 1))
      && (Bit(s, n - 1) || Bit(t, n - 1))
  {
    var n := Max(NumBits(s), NumBits(t));
    assert n > 0;
    TopOne(s, n);
    TopOne(t, n);
  }

  lemma TopOne(k: nat, n: nat)
    requires NumBits(k) <= n && n > 0
    ensures Prefix(k, n - 1) == Small(Bit(k, n - 1))
    ensures NumBits(k) == n ==> Bit(k, n - 1)
  {
    if NumBits(k) < n { PrefixZero(k, n - 1); } else { TopBit(k); }
  }
}
