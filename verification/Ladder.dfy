/** The two scalar multiplications of sign_tool/gm/ecc.c over any abelian group, with any addition that is right for
    points apart from each other, as those of the program are, or with one that is right for all points. */
module Ladder {
  import opened Group
  import opened JointGroup
  import opened PointMult
  import opened Scalars

  /** Addition, subtraction and doubling as some program does them. */
  datatype Adder<!T> = Adder(plus: (T, T) -> T, minus: (T, T) -> T, twice: T -> T)

  predicate PairOk<T(==)>(g: Ops<T>, f: Adder<T>, a: T, b: T) {
    f.plus(a, b) == g.add(a, b) && f.minus(a, b) == Sub(g, a, b)
  }

  ghost predicate Complete<T(!new)>(g: Ops<T>, f: Adder<T>) {
    (forall a: T, b: T :: PairOk(g, f, a, b)) && forall a: T :: f.twice(a) == g.add(a, a)
  }

  /** Right for points that are neither zero, equal nor opposite, and for doubles other than zero. */
  ghost predicate RightApart<T(!new)>(g: Ops<T>, f: Adder<T>) {
    && (forall a: T, b: T :: Apart(g, a, b) ==> PairOk(g, f, a, b))
    && forall a: T :: a != g.zero && g.add(a, a) != g.zero ==> f.twice(a) == g.add(a, a)
  }

  // ----- the Montgomery ladder -----

  /** r holds j P and (j + 1) P: their difference is P. */
  ghost predicate Rungs<T(!new)>(g: Ops<T>, r: seq<T>, j: nat, p: T) {
    |r| == 2 && r[0] == Mul(g, j, p) && r[1] == Mul(g, j + 1, p)
  }

  /** addC on the pair, then add: the rung that is doubled and the other. */
  function Step<T>(f: Adder<T>, a: T, b: T): (r: (T, T)) {
    var d := f.minus(a, b);
    var s := f.plus(a, b);
    (f.plus(s, d), s)
  }

  /** The rungs a step with bit nb = !bit writes. */
  function Stepped<T>(f: Adder<T>, r: seq<T>, bit: bool): (s: seq<T>)
    requires |r| == 2
    ensures |s| == 2
  {
    var nb := if bit then 0 else 1;
    var t := Step(f, r[1 - nb], r[nb]);
    if bit then [t.1, t.0] else [t.0, t.1]
  }

  /** With complete addition the step doubles its first operand. */
  lemma StepDoubles<T(!new)>(g: Ops<T>, f: Adder<T>, a: T, b: T)
    requires Abelian(g) && Complete(g, f)
    ensures Step(f, a, b) == (g.add(a, a), g.add(a, b))
  {
    Exchange(g, a, b, a, g.neg(b));
    Unit(g, b);
    Unit(g, g.add(a, a));
    assert PairOk(g, f, a, b) && PairOk(g, f, g.add(a, b), Sub(g, a, b));
  }

  /** The difference of the rungs is P. */
  lemma RungsDiffer<T(!new)>(g: Ops<T>, r: seq<T>, j: nat, p: T)
    requires Abelian(g) && Rungs(g, r, j, p)
    ensures Sub(g, r[1], r[0]) == p
  {
    AddSub(g, Mul(g, j, p), p);
  }

  lemma StepKeepsRungs<T(!new)>(g: Ops<T>, f: Adder<T>, r: seq<T>, j: nat, p: T, bit: bool)
    requires Abelian(g) && Complete(g, f) && Rungs(g, r, j, p)
    ensures Rungs(g, Stepped(f, r, bit), 2 * j + Small(bit), p)
    ensures Sub(g, Stepped(f, r, bit)[1], Stepped(f, r, bit)[0]) == p
  {
    StepDoubles(g, f, r[1], r[0]);
    StepDoubles(g, f, r[0], r[1]);
    MulAdd(g, j, j, p);
    MulAdd(g, j, j + 1, p);
    MulAdd(g, j + 1, j, p);
    MulAdd(g, j + 1, j + 1, p);
    RungsDiffer(g, Stepped(f, r, bit), 2 * j + Small(bit), p);
  }

  ghost predicate OddOrder<T(!new)>(g: Ops<T>, p: T, n: nat) {
    HasOrder(g, p, n) && n % 2 == 1 && n > 1
  }

  /** A step from nonzero rungs that are not opposite adds only points apart. */
  lemma StepsApart<T(!new)>(g: Ops<T>, f: Adder<T>, r: seq<T>, j: nat, p: T, n: nat, bit: bool)
    requires Abelian(g) && RightApart(g, f) && OddOrder(g, p, n) && Sound(n, j) && !Crossing(n, j) && Rungs(g, r, j, p)
    ensures Rungs(g, Stepped(f, r, bit), 2 * j + Small(bit), p) && Sound(n, 2 * j + Small(bit))
    ensures Sub(g, Stepped(f, r, bit)[1], Stepped(f, r, bit)[0]) == p
  {
    StepApart(g, p, n, j, bit);
    SoundNext(n, j, bit);
    var a, b := First(g, p, j, bit), Second(g, p, j, bit);
    assert PairOk(g, f, a, b) && PairOk(g, f, g.add(a, b), Sub(g, a, b));
    RungsDiffer(g, Stepped(f, r, bit), 2 * j + Small(bit), p);
  }

  /** The addition serves: it is complete, or the rungs have not met opposite points. */
  ghost predicate Works<T(!new)>(g: Ops<T>, f: Adder<T>, p: T, n: nat, lost: bool) {
    Complete(g, f) || (RightApart(g, f) && OddOrder(g, p, n) && !lost)
  }

  ghost predicate Climbs<T(!new)>(g: Ops<T>, f: Adder<T>, p: T, n: nat, r: seq<T>, j: nat, lost: bool)
    requires n > 0
  {
    |r| == 2 && (Works(g, f, p, n, lost) ==> Rungs(g, r, j, p) && (Complete(g, f) || Sound(n, j)))
  }

  lemma ClimbsNext<T(!new)>(g: Ops<T>, f: Adder<T>, p: T, n: nat, r: seq<T>, j: nat, lost: bool, bit: bool)
    requires Abelian(g) && n > 0 && Climbs(g, f, p, n, r, j, lost)
    ensures Climbs(g, f, p, n, Stepped(f, r, bit), 2 * j + Small(bit), lost || Crossing(n, j))
  {
    if Complete(g, f) {
      StepKeepsRungs(g, f, r, j, p, bit);
    } else if Works(g, f, p, n, lost || Crossing(n, j)) {
      StepsApart(g, f, r, j, p, n, bit);
    }
  }

  lemma ClimbsStart<T(!new)>(g: Ops<T>, f: Adder<T>, p: T, n: nat)
    requires Abelian(g) && n > 0
    ensures Climbs(g, f, p, n, [p, f.twice(p)], 1, false)
  {
    MulOne(g, p);
    if Works(g, f, p, n, false) && !Complete(g, f) {
      assert OrderAtLeast(g, p, n);
      assert n > 2;
      assert Mul(g, 1, p) != g.zero && Mul(g, 2, p) != g.zero;
    }
  }

  /** addC and add on the two rungs, indexed by nb = !bit as the source does. */
  method LadderStep<T>(f: Adder<T>, rungs: seq<T>, bit: bool) returns (r: seq<T>)
    requires |rungs| == 2
    ensures r == Stepped(f, rungs, bit)
  {
    r := rungs;
    var nb := if bit then 0 else 1;
    var diff, sum := f.minus(r[1 - nb], r[nb]), f.plus(r[1 - nb], r[nb]);
    r := r[1 - nb := diff][nb := sum];
    r := r[1 - nb := f.plus(r[nb], r[1 - nb])];
  }

  /** The loop before bit i; behind a bound variable, so that only proofs that name it see inside. */
  ghost predicate LoopAt<T(!new)>(g: Ops<T>, f: Adder<T>, p: T, n: nat, k: nat, i: int, r: seq<T>, j: nat, lost: bool)
    requires n > 0
  {
    forall q: seq<T> :: q == r ==> BitsAbove(k, n, i, j, false, lost) && Climbs(g, f, p, n, q, j, lost)
  }

  method LadderIterate<T(!new)>(g: Ops<T>, f: Adder<T>, ghost p: T, rungs: seq<T>, k: nat, i: nat, ghost n: nat,
                                ghost j0: nat, ghost lost0: bool)
      returns (r: seq<T>, ghost j: nat, ghost lost: bool)
    requires Abelian(g) && n > 0 && i > 0 && LoopAt(g, f, p, n, k, i, rungs, j0, lost0)
    ensures LoopAt(g, f, p, n, k, i - 1, r, j, lost)
  {
    var bit := Bit(k, i);
    assert BitsAbove(k, n, i, j0, false, lost0) && Climbs(g, f, p, n, rungs, j0, lost0);
    BitsNext(k, n, i, j0, false, lost0);
    ClimbsNext(g, f, p, n, rungs, j0, lost0, bit);
    r := LadderStep(f, rungs, bit);
    j, lost := 2 * j0 + Small(bit), lost0 || Crossing(n, j0);
  }

  /** All bits but the lowest: the rungs of the scalar without it, unless the rungs before them were opposite points. */
  method LadderLoop<T(!new)>(g: Ops<T>, f: Adder<T>, p: T, k: nat, ghost n: nat) returns (r: seq<T>)
    requires Abelian(g) && n > 0
    ensures Climbs(g, f, p, n, r, Prefix(Effective(k), 1), Meets(Effective(k), n, 2))
  {
    r := [p, f.twice(p)];
    ClimbsStart(g, f, p, n);
    BitsStart(k, n, false);
    ghost var j: nat, lost := 1, false;
    var i := (NumBits(k) as int) - 2;
    while i > 0
      invariant LoopAt(g, f, p, n, k, i, r, j, lost)
    {
      r, j, lost := LadderIterate(g, f, p, r, k, i, n, j, lost);
      i := i - 1;
    }
    assert BitsAbove(k, n, i, j, false, lost) && Climbs(g, f, p, n, r, j, lost);
    BitsEnd(k, n, i, j, false, lost);
  }

  /** The Montgomery ladder of ecc_point_mult, for every addition that is right for points apart and every point of odd
      order n: the multiple by the effective scalar unless the rungs meet opposite points, and always if the addition
      is complete; the scalars one and zero then give 3 P and 2 P, which is right exactly when 2 P is zero. */
  method LadderMult<T(!new)>(g: Ops<T>, f: Adder<T>, p: T, k: nat, ghost n: nat) returns (result: T)
    requires Abelian(g) && n > 0
    ensures Works(g, f, p, n, Meets(Effective(k), n, 1)) ==> result == Mul(g, Effective(k), p)
    ensures Complete(g, f) ==> (result == Mul(g, k, p) <==> k >= 2 || g.add(p, p) == g.zero)
  {
    LadderExact(g, p, k);
    LastBits(k, n);
    var r := LadderLoop(g, f, p, k, n);
    ghost var e := Effective(k);
    ClimbsNext(g, f, p, n, r, Prefix(e, 1), Meets(e, n, 2), Bit(k, 0));
    r := LadderStep(f, r, Bit(k, 0));
    result := r[0];
  }

  /** The effective scalar gives another multiple unless it is the scalar or 2 P is zero. */
  lemma LadderExact<T(!new)>(g: Ops<T>, p: T, k: nat)
    requires Abelian(g)
    ensures Mul(g, Effective(k), p) == Mul(g, k, p) <==> k >= 2 || g.add(p, p) == g.zero
  {
    if k < 2 {
      MulAdd(g, k, 2, p);
      MulOne(g, p);
      var m, d := Mul(g, k, p), g.add(p, p);
      AddSub(g, m, d);
      Unit(g, m);
      NegUnique(g, m, m);
    }
  }

  // ----- Shamir's trick -----

  /** The addition serves the bits down to i: it is complete, or it is right for points apart, the table serves and no
      step met a special case. */
  ghost predicate Serves<T(!new)>(g: Ops<T>, f: Adder<T>, a: T, b: T, s: nat, t: nat, i: nat) {
    Complete(g, f) || (RightApart(g, f) && TableServes(g, a, b, s, t) && GenericFrom(g, a, b, s, t, i))
  }

  ghost predicate Reached<T(!new)>(g: Ops<T>, f: Adder<T>, a: T, b: T, s: nat, t: nat, i: nat, r: T) {
    Serves(g, f, a, b, s, t, i) ==> JointAt(g, a, b, s, t, i, r)
  }

  /** The table entry that two bits select. */
  function Chosen<T>(f: Adder<T>, a: T, b: T, s: bool, t: bool): T
    requires s || t
  {
    if s then (if t then f.plus(a, b) else a) else b
  }

  lemma ChosenRight<T(!new)>(g: Ops<T>, f: Adder<T>, a: T, b: T, s: nat, t: nat, i: nat, k: nat)
    requires Serves(g, f, a, b, s, t, k) && (Bit(s, i) || Bit(t, i))
    ensures Chosen(f, a, b, Bit(s, i), Bit(t, i)) == Pick(g, a, b, Bit(s, i), Bit(t, i))
  {
    if Bit(s, i) && Bit(t, i) { assert PairOk(g, f, a, b); }
  }

  /** Double, then add the selected point if there is one. */
  method JointAddStep<T(!new)>(f: Adder<T>, a: T, b: T, r: T, s: bool, t: bool) returns (r': T)
    ensures r' == if s || t then f.plus(Chosen(f, a, b, s, t), f.twice(r)) else f.twice(r)
  {
    r' := f.twice(r);
    if s || t {
      r' := f.plus(Chosen(f, a, b, s, t), r');
    }
  }

  lemma ReachedNext<T(!new)>(g: Ops<T>, f: Adder<T>, a: T, b: T, s: nat, t: nat, i: nat, r: T, r': T)
    requires Abelian(g) && Reached(g, f, a, b, s, t, i + 1, r) && i + 1 < Max(NumBits(s), NumBits(t))
    requires var sb, tb := Bit(s, i), Bit(t, i);
      r' == if sb || tb then f.plus(Chosen(f, a, b, sb, tb), f.twice(r)) else f.twice(r)
    ensures Reached(g, f, a, b, s, t, i, r')
  {
    if Serves(g, f, a, b, s, t, i) {
      assert Serves(g, f, a, b, s, t, i + 1);
      assert !Complete(g, f) ==> Generic(g, a, b, s, t, i);
      var u, d := Pick(g, a, b, Bit(s, i), Bit(t, i)), g.add(r, r);
      assert f.twice(r) == d;
      if Bit(s, i) || Bit(t, i) {
        ChosenRight(g, f, a, b, s, t, i, i);
        assert PairOk(g, f, u, d);
        Comm(g, u, d);
      } else {
        Unit(g, d);
      }
      JointStep(g, a, b, s, t, i, r, r');
    }
  }

  /** The point of the top bits. */
  method JointStart<T(!new)>(g: Ops<T>, f: Adder<T>, a: T, b: T, s: nat, t: nat) returns (r: T, n: nat)
    requires Abelian(g) && (s > 0 || t > 0)
    ensures n == Max(NumBits(s), NumBits(t)) && n > 0 && ReachedAt(g, f, a, b, s, t, n - 1, r)
  {
    n := Max(NumBits(s), NumBits(t));
    TopPick(s, t);
    JointTop(g, a, b, s, t, n);
    r := Chosen(f, a, b, Bit(s, n - 1), Bit(t, n - 1));
    if Serves(g, f, a, b, s, t, n - 1) { ChosenRight(g, f, a, b, s, t, n - 1, n - 1); }
  }

  /** Reached behind a bound variable, so that only proofs that name it see inside. */
  ghost predicate ReachedAt<T(!new)>(g: Ops<T>, f: Adder<T>, a: T, b: T, s: nat, t: nat, i: nat, r: T) {
    forall k: nat :: k == i ==> Reached(g, f, a, b, s, t, k, r)
  }

  method JointIterate<T(!new)>(g: Ops<T>, f: Adder<T>, a: T, b: T, s: nat, t: nat, i: nat, r: T) returns (r': T)
    requires Abelian(g) && i + 1 < Max(NumBits(s), NumBits(t)) && ReachedAt(g, f, a, b, s, t, i + 1, r)
    ensures ReachedAt(g, f, a, b, s, t, i, r')
  {
    assert Reached(g, f, a, b, s, t, i + 1, r);
    r' := JointAddStep(f, a, b, r, Bit(s, i), Bit(t, i));
    ReachedNext(g, f, a, b, s, t, i, r, r');
  }

  /** Shamir's trick of ecc_point_mult2, for every addition that is right for points apart: s G + t P for all s, t not
      both zero unless a step meets a special case, and always if the addition is complete. */
  method ShamirMult<T(!new)>(g: Ops<T>, f: Adder<T>, a: T, b: T, s: nat, t: nat) returns (r: T)
    requires Abelian(g) && (s > 0 || t > 0)
    ensures Serves(g, f, a, b, s, t, 0) ==> r == Joint(g, a, b, s, t)
  {
    var n;
    r, n := JointStart(g, f, a, b, s, t);
    var i := n - 1;
    while i > 0
      invariant 0 <= i <= n - 1
      invariant ReachedAt(g, f, a, b, s, t, i, r)
    {
      i := i - 1;
      r := JointIterate(g, f, a, b, s, t, i, r);
    }
    assert Reached(g, f, a, b, s, t, 0, r);
  }
}
