/** ecc_point_mult in coordinates: what the co-Z ladder returns for every scalar. */
module PointMult {
  import opened Arith
  import opened Field
  import opened CoZ
  import opened Cusp
  import opened CurveRep
  import opened AffinePoints
  import opened Group
  import opened Scalars

  /** a and b are neither zero, nor equal, nor opposite: their sum is a chord sum. */
  predicate Apart<T(==)>(g: Ops<T>, a: T, b: T) {
    a != g.zero && b != g.zero && a != b && a != g.neg(b)
  }

  ghost predicate SumLaw<T(!new)>(g: Ops<T>, xy: T -> Point, p: int, a: T, b: T)
    requires p > 0
  {
    Apart(g, a, b) ==> !Cong(xy(a).x, xy(b).x, p) && Chord(p, xy(a), xy(b), xy(g.add(a, b)))
  }

  ghost predicate NegLaw<T(!new)>(g: Ops<T>, xy: T -> Point, p: int, a: T)
    requires p > 0
  {
    a != g.zero ==> Cong(xy(g.neg(a)).x, xy(a).x, p) && Cong(xy(g.neg(a)).y, -xy(a).y, p)
  }

  ghost predicate DoubleLaw<T(!new)>(g: Ops<T>, xy: T -> Point, p: int, a: T)
    requires p > 0
  {
    a != g.zero && g.add(a, a) != g.zero ==> !Cong(xy(a).y, 0, p) && Tangent(p, xy(a), xy(g.add(a, a)))
  }

  /** A group of points with affine coordinates modulo p that obeys the chord and tangent law of a
      curve with a = -3. */
  ghost predicate CurveGroup<T(!new)>(g: Ops<T>, xy: T -> Point, p: int) {
    && Abelian(g) && IsField(p) && p % 2 == 1
    && (forall a: T, b: T :: SumLaw(g, xy, p, a, b))
    && (forall a: T :: NegLaw(g, xy, p, a))
    && (forall a: T :: DoubleLaw(g, xy, p, a))
  }

  /** Both chords that a co-Z step needs. */
  lemma SumAndDifference<T(!new)>(g: Ops<T>, xy: T -> Point, p: int, a: T, b: T)
    requires CurveGroup(g, xy, p) && Apart(g, a, b)
    ensures !Cong(xy(a).x, xy(b).x, p)
    ensures Chord(p, xy(a), xy(b), xy(g.add(a, b)))
    ensures Chord(p, xy(a), Point(xy(b).x, -xy(b).y), xy(Sub(g, a, b)))
  {
    assert SumLaw(g, xy, p, a, b);
    assert NegLaw(g, xy, p, b);
    DoubleNeg(g, b);
    if g.neg(b) == g.zero {
      NegUnique(g, b, g.zero);
      Unit(g, b);
      Unit(g, g.zero);
      NegUnique(g, g.zero, g.zero);
      assert false;
    }
    assert SumLaw(g, xy, p, a, g.neg(b));
    CongRefl(xy(a).x, p);
    CongRefl(xy(a).y, p);
    ChordSame(p, xy(a), xy(g.neg(b)), xy(a), Point(xy(b).x, -xy(b).y), xy(Sub(g, a, b)));
  }

  ghost predicate NonZero(p: int, z: int)
    requires p > 0
  {
    !Cong(z, 0, p)
  }

  /** The new common denominator is nonzero as long as the x-coordinates differ. */
  lemma NewZ(p: int, px: int, qx: int, z: int, ax: int, bx: int)
    requires IsField(p) && NonZero(p, z) && !Cong(ax, bx, p)
    requires Cong(px, ax * (z * z), p) && Cong(qx, bx * (z * z), p)
    ensures NonZero(p, z * (qx - px))
  {
    CongSub(qx, bx * (z * z), px, ax * (z * z), p);
    assert bx * (z * z) - ax * (z * z) == (bx - ax) * (z * z);
    if Cong(bx - ax, 0, p) {
      CongRefl(ax, p);
      CongAdd(bx - ax, 0, ax, ax, p);
      assert bx - ax + ax == bx && 0 + ax == ax;
      CongSym(bx, ax, p);
      assert false;
    }
    NonzeroProduct(p, z, z);
    NonzeroProduct(p, bx - ax, z * z);
    if Cong(qx - px, 0, p) {
      CongSym(qx - px, (bx - ax) * (z * z), p);
      CongTrans((bx - ax) * (z * z), qx - px, 0, p);
      assert false;
    }
    NonzeroProduct(p, z, qx - px);
  }

  /** (x, y) are the coordinates of t scaled by z. */
  ghost predicate At<T(!new)>(xy: T -> Point, p: int, x: int, y: int, z: int, t: T)
    requires p > 0
  {
    Rep(p, x, y, z, xy(t))
  }

  /** XYcZ_add on points of the group. */
  lemma AddPoints<T(!new)>(g: Ops<T>, xy: T -> Point, p: int, z: int, a: T, b: T, ax: int, ay: int, bx: int, yb: int,
                           cx: int, cy: int, dx: int, dy: int)
    requires CurveGroup(g, xy, p) && Apart(g, a, b) && NonZero(p, z)
    requires At(xy, p, ax, ay, z, a) && At(xy, p, bx, yb, z, b)
    requires Scaled(p, ax, ay, bx, cx, cy) && Sum(p, ax, ay, bx, yb - ay, dx, dy)
    ensures var z' := z * (bx - ax);
      NonZero(p, z') && At(xy, p, cx, cy, z', a) && At(xy, p, dx, dy, z', g.add(a, b))
  {
    SumAndDifference(g, xy, p, a, b);
    NewZ(p, ax, bx, z, xy(a).x, xy(b).x);
    AddMeans(p, ax, ay, bx, yb, z, cx, cy, dx, dy, xy(a), xy(b), xy(g.add(a, b)));
  }

  /** XYcZ_addC on points of the group. */
  lemma SubAddPoints<T(!new)>(g: Ops<T>, xy: T -> Point, p: int, z: int, a: T, b: T, ax: int, ay: int, bx: int, yb: int,
                              cx: int, cy: int, dx: int, dy: int)
    requires CurveGroup(g, xy, p) && Apart(g, a, b) && NonZero(p, z)
    requires At(xy, p, ax, ay, z, a) && At(xy, p, bx, yb, z, b)
    requires Sum(p, ax, ay, bx, -yb - ay, cx, cy) && Sum(p, ax, ay, bx, yb - ay, dx, dy)
    ensures var z' := z * (bx - ax);
      NonZero(p, z') && At(xy, p, cx, cy, z', Sub(g, a, b)) && At(xy, p, dx, dy, z', g.add(a, b))
  {
    SumAndDifference(g, xy, p, a, b);
    NewZ(p, ax, bx, z, xy(a).x, xy(b).x);
    AddCMeans(p, ax, ay, bx, yb, z, cx, cy, dx, dy, xy(a), xy(b), xy(Sub(g, a, b)), xy(g.add(a, b)));
  }

  lemma MultiplesApart<T(!new)>(g: Ops<T>, t: T, n: nat, i: nat, j: nat)
    requires Abelian(g) && HasOrder(g, t, n) && i < j
    requires i % n != 0 && j % n != 0 && (j - i) % n != 0 && (i + j) % n != 0
    ensures Apart(g, Mul(g, i, t), Mul(g, j, t)) && Apart(g, Mul(g, j, t), Mul(g, i, t))
  {
    var a, b := Mul(g, i, t), Mul(g, j, t);
    OrderDivides(g, t, n, i);
    OrderDivides(g, t, n, j);
    OrderDivides(g, t, n, j - i);
    OrderDivides(g, t, n, i + j);
    MulAdd(g, i, j - i, t);
    AddSub(g, a, Mul(g, j - i, t));
    NegUnique(g, b, a);
    MulAdd(g, i, j, t);
    NegUnique(g, a, b);
    Comm(g, a, b);
  }

  /** A point and its opposite are apart from the same points. */
  lemma ApartNeg<T(!new)>(g: Ops<T>, a: T, b: T)
    requires Abelian(g) && Apart(g, a, b)
    ensures Apart(g, a, g.neg(b))
  {
    DoubleNeg(g, b);
    Unit(g, b);
    Unit(g, g.zero);
    NegUnique(g, b, g.zero);
  }

  /** Neither rung at j is zero. */
  predicate Sound(n: nat, j: nat)
    requires n > 0
  {
    j % n != 0 && (j + 1) % n != 0
  }

  /** The rungs at j are opposite points. */
  predicate Crossing(n: nat, j: nat)
    requires n > 0
  {
    (2 * j + 1) % n == 0
  }

  lemma OddDouble(n: nat, a: nat)
    requires n > 0 && n % 2 == 1 && a % n != 0
    ensures (2 * a) % n != 0
  {
    if (2 * a) % n == 0 {
      assert Cong(2 * a, 2 * 0, n);
      CancelTwo(a, 0, n);
      assert false;
    }
  }

  lemma SoundNext(n: nat, j: nat, bit: bool)
    requires n > 0 && n % 2 == 1 && Sound(n, j) && !Crossing(n, j)
    ensures Sound(n, 2 * j + Small(bit))
  {
    OddDouble(n, j);
    OddDouble(n, j + 1);
  }

  /** The operands of a step at rung j: the first is the rung that is doubled. */
  function First<T>(g: Ops<T>, t: T, j: nat, bit: bool): T {
    Mul(g, if bit then j + 1 else j, t)
  }

  function Second<T>(g: Ops<T>, t: T, j: nat, bit: bool): T {
    Mul(g, if bit then j else j + 1, t)
  }

  /** t itself for a set bit, its opposite for a clear one. */
  function Signed<T>(g: Ops<T>, t: T, bit: bool): T {
    if bit then t else g.neg(t)
  }

  /** Difference and sum of the rungs, and that every addition of the step is between points apart. */
  lemma StepApart<T(!new)>(g: Ops<T>, t: T, n: nat, j: nat, bit: bool)
    requires Abelian(g) && HasOrder(g, t, n) && n % 2 == 1 && n > 1 && Sound(n, j) && !Crossing(n, j)
    ensures Apart(g, First(g, t, j, bit), Second(g, t, j, bit))
    ensures Sub(g, First(g, t, j, bit), Second(g, t, j, bit)) == Signed(g, t, bit)
    ensures g.add(First(g, t, j, bit), Second(g, t, j, bit)) == Mul(g, 2 * j + 1, t)
    ensures Apart(g, Mul(g, 2 * j + 1, t), Signed(g, t, bit))
    ensures g.add(Mul(g, 2 * j + 1, t), Signed(g, t, bit)) == Mul(g, 2 * j + (if bit then 2 else 0), t)
  {
    DivModUnique(1, n, 0, 1);
    OddDouble(n, j);
    OddDouble(n, j + 1);
    MultiplesApart(g, t, n, j, j + 1);
    MulAdd(g, j, j + 1, t);
    MulAdd(g, j + 1, j, t);
    MulOne(g, t);
    RungDifference(g, t, j);
    assert 1 + (2 * j + 1) == 2 * (j + 1) && 2 * j + 1 - 1 == 2 * j;
    MultiplesApart(g, t, n, 1, 2 * j + 1);
    ApartNeg(g, Mul(g, 2 * j + 1, t), t);
    MulAdd(g, 2 * j + 1, 1, t);
    MulAdd(g, 2 * j, 1, t);
    AddSub(g, Mul(g, 2 * j, t), t);
  }

  lemma RungDifference<T(!new)>(g: Ops<T>, t: T, j: nat)
    requires Abelian(g)
    ensures Sub(g, Mul(g, j + 1, t), Mul(g, j, t)) == t
    ensures Sub(g, Mul(g, j, t), Mul(g, j + 1, t)) == g.neg(t)
  {
    var a, b := Mul(g, j, t), Mul(g, j + 1, t);
    assert b == g.add(a, t);
    AddSub(g, a, t);
    var d := Sub(g, a, b);
    Exchange(g, a, g.neg(b), t, g.zero);
    AddSub(g, b, a);
    Unit(g, t);
    Unit(g, g.neg(b));
    Unit(g, b);
    assert g.add(d, t) == g.zero;
    NegUnique(g, d, t);
  }

  /** The two rungs in coordinates, over a common z. */
  datatype Rung = Rung(x: int, y: int)

  ghost predicate RungsAt<T(!new)>(g: Ops<T>, xy: T -> Point, p: int, r: seq<Rung>, z: int, t: T, j: nat)
    requires p > 0
  {
    && |r| == 2 && NonZero(p, z)
    && At(xy, p, r[0].x, r[0].y, z, Mul(g, j, t)) && At(xy, p, r[1].x, r[1].y, z, Mul(g, j + 1, t))
  }

  /** After addC at rung j: the difference in r[1 - nb], the sum in r[nb]. */
  ghost predicate Halfway<T(!new)>(g: Ops<T>, xy: T -> Point, p: int, r: seq<Rung>, z: int, t: T, j: nat, bit: bool)
    requires p > 0
  {
    var nb := if bit then 0 else 1;
    && |r| == 2 && NonZero(p, z)
    && At(xy, p, r[1 - nb].x, r[1 - nb].y, z, Signed(g, t, bit))
    && At(xy, p, r[nb].x, r[nb].y, z, Mul(g, 2 * j + 1, t))
  }

  /** One rung is (0, 0) and the other has y^2 = x^3. */
  ghost predicate Lost(p: int, r: seq<Rung>)
    requires p > 0
  {
    && |r| == 2
    && ((Origin(r[0].x, r[0].y) && OnCusp(p, r[1].x, r[1].y)) || (Origin(r[1].x, r[1].y) && OnCusp(p, r[0].x, r[0].y)))
  }

  /** After addC on lost or opposite rungs: the difference is (0, 0). */
  ghost predicate HalfLost(p: int, r: seq<Rung>, bit: bool)
    requires p > 0
  {
    var nb := if bit then 0 else 1;
    |r| == 2 && Origin(r[1 - nb].x, r[1 - nb].y) && OnCusp(p, r[nb].x, r[nb].y)
  }

  ghost predicate AllReduced(p: int, r: seq<Rung>) {
    |r| == 2 && Reduced(p, r[0].x) && Reduced(p, r[0].y) && Reduced(p, r[1].x) && Reduced(p, r[1].y)
  }

  /** r is what XYcZ_addC(R[1 - nb], R[nb]) makes of the rungs. */
  ghost predicate SubAdded(p: int, rungs: seq<Rung>, bit: bool, r: seq<Rung>)
    requires p > 0 && |rungs| == 2
  {
    var nb := if bit then 0 else 1;
    var a, b := rungs[1 - nb], rungs[nb];
    && AllReduced(p, r)
    && Sum(p, a.x, a.y, b.x, -b.y - a.y, r[1 - nb].x, r[1 - nb].y) && Sum(p, a.x, a.y, b.x, b.y - a.y, r[nb].x, r[nb].y)
  }

  /** r is what XYcZ_add(R[nb], R[1 - nb]) makes of the rungs. */
  ghost predicate Added(p: int, rungs: seq<Rung>, bit: bool, r: seq<Rung>)
    requires p > 0 && |rungs| == 2
  {
    var nb := if bit then 0 else 1;
    var a, b := rungs[1 - nb], rungs[nb];
    && AllReduced(p, r)
    && Scaled(p, b.x, b.y, a.x, r[nb].x, r[nb].y) && Sum(p, b.x, b.y, a.x, a.y - b.y, r[1 - nb].x, r[1 - nb].y)
  }

  method RungsAddC(p: int, rungs: seq<Rung>, bit: bool) returns (r: seq<Rung>)
    requires p > 0 && |rungs| == 2
    ensures SubAdded(p, rungs, bit, r)
  {
    var nb := if bit then 0 else 1;
    var a, b := rungs[1 - nb], rungs[nb];
    var cx, cy, dx, dy := XYcZAddC(p, a.x, a.y, b.x, b.y);
    r := rungs[1 - nb := Rung(cx, cy)][nb := Rung(dx, dy)];
  }

  method RungsAdd(p: int, rungs: seq<Rung>, bit: bool) returns (r: seq<Rung>)
    requires p > 0 && |rungs| == 2
    ensures Added(p, rungs, bit, r)
  {
    var nb := if bit then 0 else 1;
    var a, b := rungs[1 - nb], rungs[nb];
    var cx, cy, dx, dy := XYcZAdd(p, b.x, b.y, a.x, a.y);
    r := rungs[nb := Rung(cx, cy)][1 - nb := Rung(dx, dy)];
  }

  lemma LostAddC(p: int, rungs: seq<Rung>, bit: bool, r: seq<Rung>)
    requires p > 0 && Lost(p, rungs) && SubAdded(p, rungs, bit, r)
    ensures HalfLost(p, r, bit)
  {
    var nb := if bit then 0 else 1;
    var a, b := rungs[1 - nb], rungs[nb];
    CongRefl(0, p);
    if Origin(a.x, a.y) && OnCusp(p, b.x, b.y) {
      assert (-b.y) * (-b.y) == b.y * b.y;
      SumFromZero(p, b.x, -b.y, r[1 - nb].x, r[1 - nb].y);
      SumFromZero(p, b.x, b.y, r[nb].x, r[nb].y);
    } else {
      SumToZero(p, a.x, a.y, r[1 - nb].x, r[1 - nb].y);
      SumToZero(p, a.x, a.y, r[nb].x, r[nb].y);
    }
  }

  /** Opposite rungs: equal x, and y-coordinates that cancel. */
  lemma CrossAddC(p: int, rungs: seq<Rung>, bit: bool, r: seq<Rung>)
    requires p > 0 && |rungs| == 2 && SubAdded(p, rungs, bit, r)
    requires Cong(rungs[0].x, rungs[1].x, p) && Cong(rungs[0].y + rungs[1].y, 0, p)
    ensures HalfLost(p, r, bit)
  {
    var nb := if bit then 0 else 1;
    var a, b := rungs[1 - nb], rungs[nb];
    CongSym(rungs[0].x, rungs[1].x, p);
    CongRefl(a.x, p);
    CongSub(b.x, a.x, a.x, a.x, p);
    CongRefl(0, p);
    CongSub(0, 0, rungs[0].y + rungs[1].y, 0, p);
    assert 0 - (rungs[0].y + rungs[1].y) == -b.y - a.y;
    SumLevel(p, a.x, a.y, b.x, -b.y - a.y, r[1 - nb].x, r[1 - nb].y);
    LevelZero(p, -b.y - a.y, r[1 - nb].x, r[1 - nb].y);
    SumLevel(p, a.x, a.y, b.x, b.y - a.y, r[nb].x, r[nb].y);
    LevelCusp(p, b.y - a.y, r[nb].x, r[nb].y);
  }

  lemma LostAdd(p: int, rungs: seq<Rung>, bit: bool, r: seq<Rung>)
    requires p > 0 && HalfLost(p, rungs, bit) && Added(p, rungs, bit, r)
    ensures Lost(p, r)
  {
    var nb := if bit then 0 else 1;
    var b := rungs[nb];
    ScaledCusp(p, b.x, b.y, r[nb].x, r[nb].y);
    SumToZero(p, b.x, b.y, r[1 - nb].x, r[1 - nb].y);
  }

  /** The rungs before a step: those of j, or lost. */
  ghost predicate Climbing<T(!new)>(g: Ops<T>, xy: T -> Point, p: int, n: nat, r: seq<Rung>, z: int, t: T, j: nat,
                                    lost: bool)
    requires p > 0 && n > 0
  {
    if lost then Lost(p, r) else Sound(n, j) && RungsAt(g, xy, p, r, z, t, j)
  }

  /** The rungs between addC and add. */
  ghost predicate Turning<T(!new)>(g: Ops<T>, xy: T -> Point, p: int, n: nat, r: seq<Rung>, z: int, t: T, j: nat,
                                   bit: bool, lost: bool)
    requires p > 0 && n > 0
  {
    if lost then HalfLost(p, r, bit) else Sound(n, j) && !Crossing(n, j) && Halfway(g, xy, p, r, z, t, j, bit)
  }

  /** The point has odd order n. */
  ghost predicate Base<T(!new)>(g: Ops<T>, xy: T -> Point, p: int, t: T, n: nat) {
    CurveGroup(g, xy, p) && HasOrder(g, t, n) && n % 2 == 1 && n > 1
  }

  lemma SoundHalf<T(!new)>(g: Ops<T>, xy: T -> Point, p: int, n: nat, rungs: seq<Rung>, z: int, t: T, j: nat,
                           bit: bool, r: seq<Rung>)
    requires Base(g, xy, p, t, n) && Sound(n, j) && !Crossing(n, j)
    requires RungsAt(g, xy, p, rungs, z, t, j) && SubAdded(p, rungs, bit, r)
    ensures var nb := if bit then 0 else 1; Halfway(g, xy, p, r, z * (rungs[nb].x - rungs[1 - nb].x), t, j, bit)
  {
    StepApart(g, t, n, j, bit);
    var nb := if bit then 0 else 1;
    var a, b := rungs[1 - nb], rungs[nb];
    SubAddPoints(g, xy, p, z, First(g, t, j, bit), Second(g, t, j, bit), a.x, a.y, b.x, b.y,
      r[1 - nb].x, r[1 - nb].y, r[nb].x, r[nb].y);
  }

  /** Coordinates of opposite points over the same z. */
  lemma OppositeAt<T(!new)>(g: Ops<T>, xy: T -> Point, p: int, z: int, a: T, ax: int, ay: int, bx: int, yb: int)
    requires CurveGroup(g, xy, p) && a != g.zero && At(xy, p, ax, ay, z, a) && At(xy, p, bx, yb, z, g.neg(a))
    ensures Cong(ax, bx, p) && Cong(ay + yb, 0, p)
  {
    assert NegLaw(g, xy, p, a);
    var u, v := xy(a), xy(g.neg(a));
    CongTimes(v.x, u.x, z * z, p);
    CongTrans(bx, v.x * (z * z), u.x * (z * z), p);
    CongSym(bx, u.x * (z * z), p);
    CongTrans(ax, u.x * (z * z), bx, p);
    var c := z * z * z;
    CongTimes(v.y, -u.y, c, p);
    CongTrans(yb, v.y * c, -u.y * c, p);
    CongAdd(ay, u.y * c, yb, -u.y * c, p);
    assert u.y * c + -u.y * c == 0;
  }

  lemma CrossHalf<T(!new)>(g: Ops<T>, xy: T -> Point, p: int, n: nat, rungs: seq<Rung>, z: int, t: T, j: nat,
                           bit: bool, r: seq<Rung>)
    requires Base(g, xy, p, t, n) && Sound(n, j) && Crossing(n, j)
    requires RungsAt(g, xy, p, rungs, z, t, j) && SubAdded(p, rungs, bit, r)
    ensures HalfLost(p, r, bit)
  {
    var a, b := Mul(g, j, t), Mul(g, j + 1, t);
    OrderDivides(g, t, n, j);
    OrderDivides(g, t, n, 2 * j + 1);
    MulAdd(g, j, j + 1, t);
    Comm(g, a, b);
    NegUnique(g, b, a);
    OppositeAt(g, xy, p, z, a, rungs[0].x, rungs[0].y, rungs[1].x, rungs[1].y);
    CrossAddC(p, rungs, bit, r);
  }

  /** XYcZ_addC(R[1 - nb], R[nb]). */
  method FirstHalf<T(!new)>(p: int, rungs: seq<Rung>, bit: bool,
                      ghost g: Ops<T>, ghost xy: T -> Point, ghost n: nat, ghost z: int, ghost t: T, ghost j: nat,
                      ghost lost: bool)
      returns (r: seq<Rung>, ghost z': int)
    requires Base(g, xy, p, t, n) && Climbing(g, xy, p, n, rungs, z, t, j, lost)
    ensures SubAdded(p, rungs, bit, r) && Turning(g, xy, p, n, r, z', t, j, bit, lost || Crossing(n, j))
  {
    r := RungsAddC(p, rungs, bit);
    ghost var nb := if bit then 0 else 1;
    z' := z * (rungs[nb].x - rungs[1 - nb].x);
    if lost {
      LostAddC(p, rungs, bit, r);
    } else if Crossing(n, j) {
      CrossHalf(g, xy, p, n, rungs, z, t, j, bit, r);
    } else {
      SoundHalf(g, xy, p, n, rungs, z, t, j, bit, r);
    }
  }

  lemma HalfwayApart<T(!new)>(g: Ops<T>, xy: T -> Point, p: int, r: seq<Rung>, z: int, t: T, n: nat, j: nat, bit: bool)
    requires Base(g, xy, p, t, n) && Sound(n, j) && !Crossing(n, j)
    requires Halfway(g, xy, p, r, z, t, j, bit)
    ensures var nb := if bit then 0 else 1; NonZero(p, z * (r[1 - nb].x - r[nb].x))
  {
    StepApart(g, t, n, j, bit);
    var nb := if bit then 0 else 1;
    var a, b := Mul(g, 2 * j + 1, t), Signed(g, t, bit);
    SumAndDifference(g, xy, p, a, b);
    NewZ(p, r[nb].x, r[1 - nb].x, z, xy(a).x, xy(b).x);
  }

  lemma SoundStep<T(!new)>(g: Ops<T>, xy: T -> Point, p: int, n: nat, rungs: seq<Rung>, z: int, t: T, j: nat,
                           bit: bool, r: seq<Rung>)
    requires Base(g, xy, p, t, n) && Sound(n, j) && !Crossing(n, j)
    requires Halfway(g, xy, p, rungs, z, t, j, bit) && Added(p, rungs, bit, r)
    ensures Sound(n, 2 * j + Small(bit))
    ensures var nb := if bit then 0 else 1;
      RungsAt(g, xy, p, r, z * (rungs[1 - nb].x - rungs[nb].x), t, 2 * j + Small(bit))
  {
    StepApart(g, t, n, j, bit);
    SoundNext(n, j, bit);
    var nb := if bit then 0 else 1;
    var a, b := rungs[1 - nb], rungs[nb];
    AddPoints(g, xy, p, z, Mul(g, 2 * j + 1, t), Signed(g, t, bit), b.x, b.y, a.x, a.y,
      r[nb].x, r[nb].y, r[1 - nb].x, r[1 - nb].y);
  }

  /** XYcZ_add(R[nb], R[1 - nb]). */
  method SecondHalf<T(!new)>(p: int, rungs: seq<Rung>, bit: bool,
                       ghost g: Ops<T>, ghost xy: T -> Point, ghost n: nat, ghost z: int, ghost t: T, ghost j: nat,
                       ghost lost: bool)
      returns (r: seq<Rung>, ghost z': int)
    requires Base(g, xy, p, t, n) && Turning(g, xy, p, n, rungs, z, t, j, bit, lost)
    ensures Added(p, rungs, bit, r) && Climbing(g, xy, p, n, r, z', t, 2 * j + Small(bit), lost)
    ensures var nb := if bit then 0 else 1; z' == z * (rungs[1 - nb].x - rungs[nb].x)
  {
    r := RungsAdd(p, rungs, bit);
    ghost var nb := if bit then 0 else 1;
    z' := z * (rungs[1 - nb].x - rungs[nb].x);
    if lost {
      LostAdd(p, rungs, bit, r);
    } else {
      SoundStep(g, xy, p, n, rungs, z, t, j, bit, r);
    }
  }

  /** Some leading part of the scalar from bit i on, followed by a one, is a multiple of n. */
  ghost predicate Meets(k: nat, n: nat, i: nat)
    requires n > 0
    decreases NumBits(k) - i
  {
    i < NumBits(k) && (Crossing(n, Prefix(k, i)) || Meets(k, n, i + 1))
  }

  /** (px, py) are the affine coordinates of t. */
  ghost predicate Affine<T(!new)>(xy: T -> Point, p: int, px: int, py: int, t: T)
    requires p > 0
  {
    Cong(px, xy(t).x, p) && Cong(py, xy(t).y, p)
  }

  lemma ApplyRep(p: int, px: int, py: int, z: int, x: int, y: int, a: Point)
    requires p > 0 && Cong(px, a.x, p) && Cong(py, a.y, p)
    requires Cong(x, px * (z * z), p) && Cong(y, py * (z * z * z), p)
    ensures Rep(p, x, y, z, a)
  {
    CongTimes(px, a.x, z * z, p);
    CongTimes(py, a.y, z * z * z, p);
    CongTrans(x, px * (z * z), a.x * (z * z), p);
    CongTrans(y, py * (z * z * z), a.y * (z * z * z), p);
  }

  lemma NonZeroCong(p: int, a: int, b: int)
    requires p > 0 && Cong(a, b, p) && NonZero(p, b)
    ensures NonZero(p, a)
  {
    if Cong(a, 0, p) {
      CongSym(a, b, p);
      CongTrans(b, a, 0, p);
      assert false;
    }
  }

  lemma DoubledZ(p: int, y: int, z: int, z3: int, ay: int)
    requires IsField(p) && NonZero(p, z) && NonZero(p, ay)
    requires Cong(y, ay * (z * z * z), p) && Cong(z3, y * z, p)
    ensures NonZero(p, z3)
  {
    NonzeroProduct(p, z, z);
    NonzeroProduct(p, z * z, z);
    NonzeroProduct(p, ay, z * z * z);
    NonZeroCong(p, y, ay * (z * z * z));
    NonzeroProduct(p, y, z);
    NonZeroCong(p, z3, y * z);
  }

  /** XYcZ_initial_double: P and 2 P over a common z; initialZ is 1 where the source passes no pointer. */
  method InitialDouble<T(!new)>(p: int, px: int, py: int, initialZ: int,
                          ghost g: Ops<T>, ghost xy: T -> Point, ghost t: T)
      returns (r: seq<Rung>, z: int)
    requires CurveGroup(g, xy, p) && Affine(xy, p, px, py, t) && Reduced(p, initialZ)
    requires t != g.zero && g.add(t, t) != g.zero
    ensures if initialZ == 0 then Lost(p, r) else RungsAt(g, xy, p, r, z, t, 1)
  {
    assert DoubleLaw(g, xy, p, t);
    z := initialZ;
    CongRefl(0, p);
    var x1, y1 := ApplyZ(p, px, py, z);
    ghost var x0, y0 := x1, y1;
    ghost var h;
    x1, y1, z, h := DoubleJacobian(p, x1, y1, z);
    var x2, y2 := ApplyZ(p, px, py, z);
    r := [Rung(x2, y2), Rung(x1, y1)];
    if initialZ == 0 {
      ScaledByZero(p, px, py, x0, y0);
      ScaledByZero(p, px, py, x2, y2);
    } else {
      InitialRungs(g, xy, p, px, py, initialZ, t, x0, y0, h, x1, y1, z, x2, y2);
    }
  }

  lemma ScaledByZero(p: int, px: int, py: int, x: int, y: int)
    requires p > 0 && Cong(x, px * (0 * 0), p) && Cong(y, py * (0 * 0 * 0), p) && Reduced(p, x) && Reduced(p, y)
    ensures Origin(x, y)
  {
    CongSmall(x, 0, p);
    CongSmall(y, 0, p);
  }

  lemma ReducedNonZero(p: int, x: int)
    requires p > 0 && Reduced(p, x)
    ensures NonZero(p, x) <==> x != 0
  {
    CongRefl(0, p);
    if Cong(x, 0, p) { CongSmall(x, 0, p); }
  }

  lemma InitialRungs<T(!new)>(g: Ops<T>, xy: T -> Point, p: int, px: int, py: int, z0: int, t: T,
                              x0: int, y0: int, h: int, x1: int, y1: int, z: int, x2: int, y2: int)
    requires CurveGroup(g, xy, p) && Affine(xy, p, px, py, t) && Reduced(p, z0) && z0 != 0
    requires t != g.zero && g.add(t, t) != g.zero
    requires Cong(x0, px * (z0 * z0), p) && Cong(y0, py * (z0 * z0 * z0), p) && Doubled(p, x0, y0, z0, h, x1, y1, z)
    requires Cong(x2, px * (z * z), p) && Cong(y2, py * (z * z * z), p)
    ensures RungsAt(g, xy, p, [Rung(x2, y2), Rung(x1, y1)], z, t, 1)
  {
    assert DoubleLaw(g, xy, p, t);
    MulOne(g, t);
    ReducedNonZero(p, z0);
    ApplyRep(p, px, py, z0, x0, y0, xy(t));
    DoubleMeans(p, x0, y0, z0, h, x1, y1, z, xy(t), xy(g.add(t, t)));
    DoubledZ(p, y0, z0, z, xy(t).y);
    ApplyRep(p, px, py, z, x2, y2, xy(t));
  }

  /** Before bit i is processed, j is the scalar above it, and the rungs are lost if they met opposite points there. */
  ghost predicate BitsAbove(k: nat, n: nat, i: int, j: nat, lost0: bool, lost: bool)
    requires n > 0
  {
    if k >= 2 then 0 <= i && i + 2 <= NumBits(k) && j == Prefix(k, i + 1) && lost == (lost0 || Meets(k, n, i + 2))
    else i < 0 && j == 1 && lost == lost0
  }

  lemma BitsNext(k: nat, n: nat, i: nat, j: nat, lost0: bool, lost: bool)
    requires n > 0 && 0 < i && BitsAbove(k, n, i, j, lost0, lost)
    ensures BitsAbove(k, n, i - 1, 2 * j + Small(Bit(k, i)), lost0, lost || Crossing(n, j))
  {
    PrefixStep(k, i);
  }

  lemma BitsStart(k: nat, n: nat, lost0: bool)
    requires n > 0
    ensures BitsAbove(k, n, (NumBits(k) as int) - 2, 1, lost0, lost0)
  {
    NumBitsMono(k);
    TopBit(k);
  }

  lemma BitsEnd(k: nat, n: nat, i: int, j: nat, lost0: bool, lost: bool)
    requires n > 0 && i <= 0 && BitsAbove(k, n, i, j, lost0, lost)
    ensures j == Prefix(Effective(k), 1) && lost == (lost0 || Meets(Effective(k), n, 2))
  {
    EffectiveBits(k, n);
  }

  /** The loop before bit i. */
  ghost predicate LoopState<T(!new)>(g: Ops<T>, xy: T -> Point, p: int, n: nat, t: T, k: nat, i: int, lost0: bool,
                               r: seq<Rung>, z: int, j: nat, lost: bool)
    requires p > 0 && n > 0
  {
    forall q :: q == r ==> BitsAbove(k, n, i, j, lost0, lost) && Climbing(g, xy, p, n, q, z, t, j, lost)
  }

  /** addC and add for bit i. */
  method CoZStep<T(!new)>(p: int, rungs: seq<Rung>, k: nat, i: nat,
                    ghost g: Ops<T>, ghost xy: T -> Point, ghost n: nat, ghost t: T, ghost lost0: bool,
                    ghost z0: int, ghost j0: nat, ghost lostj: bool)
      returns (r: seq<Rung>, ghost z: int, ghost j: nat, ghost lost: bool)
    requires Base(g, xy, p, t, n) && i > 0 && LoopState(g, xy, p, n, t, k, i, lost0, rungs, z0, j0, lostj)
    ensures LoopState(g, xy, p, n, t, k, i - 1, lost0, r, z, j, lost)
  {
    var bit := Bit(k, i);
    assert BitsAbove(k, n, i, j0, lost0, lostj) && Climbing(g, xy, p, n, rungs, z0, t, j0, lostj);
    BitsNext(k, n, i, j0, lost0, lostj);
    var half, zh := FirstHalf(p, rungs, bit, g, xy, n, z0, t, j0, lostj);
    j, lost := 2 * j0 + Small(bit), lostj || Crossing(n, j0);
    r, z := SecondHalf(p, half, bit, g, xy, n, zh, t, j0, lost);
  }

  /** All scalar bits but the lowest. */
  method CoZLoop<T(!new)>(p: int, rungs: seq<Rung>, k: nat,
                    ghost g: Ops<T>, ghost xy: T -> Point, ghost n: nat, ghost z0: int, ghost t: T, ghost lost0: bool)
      returns (r: seq<Rung>, ghost z: int, ghost lost: bool)
    requires Base(g, xy, p, t, n) && Climbing(g, xy, p, n, rungs, z0, t, 1, lost0)
    ensures lost == (lost0 || Meets(Effective(k), n, 2))
    ensures Climbing(g, xy, p, n, r, z, t, Prefix(Effective(k), 1), lost)
  {
    r, z, lost := rungs, z0, lost0;
    BitsStart(k, n, lost0);
    var i := (NumBits(k) as int) - 2;
    ghost var j: nat := 1;
    while i > 0
      invariant LoopState(g, xy, p, n, t, k, i, lost0, r, z, j, lost)
    {
      r, z, j, lost := CoZStep(p, r, k, i, g, xy, n, t, lost0, z, j, lost);
      i := i - 1;
    }
    assert BitsAbove(k, n, i, j, lost0, lost) && Climbing(g, xy, p, n, r, z, t, j, lost);
    BitsEnd(k, n, i, j, lost0, lost);
  }

  /** The scalars 2 and 3 have two bits, of which the upper one is set. */
  lemma EffectiveBits(k: nat, n: nat)
    requires n > 0
    ensures k < 2 ==> Prefix(k + 2, 1) == 1 && NumBits(k + 2) == 2 && !Meets(k + 2, n, 2)
  {
    if k < 2 {
      assert Prefix(k + 2, 1) == Prefix(k + 2, 0) / 2;
      assert NumBits(k + 2) == 1 + NumBits((k + 2) / 2) && (k + 2) / 2 == 1 && NumBits(1) == 1 + NumBits(0);
    }
  }

  /** The inverse that vli_mod_inv computes; zero has none and gives zero. */
  method FInv(p: int, a: int) returns (b: int)
    requires IsField(p)
    ensures Reduced(p, b) && (NonZero(p, a) ==> Cong(a * b, 1, p)) && (!NonZero(p, a) ==> b == 0)
  {
    CongIffMod(a, 0, p);
    DivModUnique(0, p, 0, 0);
    if a % p == 0 {
      b := 0;
      return;
    }
    InverseExists(p, a);
    b :| 0 <= b < p && Cong(a * b, 1, p);
  }

  lemma InverseExists(p: int, a: int)
    requires IsField(p) && a % p != 0
    ensures exists b: int :: 0 <= b < p && Cong(a * b, 1, p)
  {
    CongIffMod(a, 0, p);
    var c := Invert(p, a);
    CongMod(c, p);
    CongRefl(a, p);
    CongMul(a, a, c % p, c, p);
    CongTrans(a * (c % p), a * c, 1, p);
    assert 0 <= c % p < p && Cong(a * (c % p), 1, p);
  }

  /** The denominator product: whatever the last bit, it is (xA - xB) * yP * z^3 * xP. */
  lemma FinalProduct(p: int, e: int, w: int, ya: int, py: int, z: int, px: int, positive: bool)
    requires p > 0 && w == (if positive then e else -e)
    requires Cong(ya, (if positive then py else -py) * (z * z * z), p)
    ensures Cong(w * ya * px, e * (py * (z * z * z)) * px, p)
  {
    var c := z * z * z;
    var s := if positive then py else -py;
    CongTimes(ya, s * c, w, p);
    assert ya * w == w * ya && (s * c) * w == e * (py * c);
    CongTimes(w * ya, e * (py * c), px, p);
  }

  lemma FinalFactor(p: int, e: int, px: int, py: int, z: int, m: int, u: int, xa: int, f: int)
    requires p > 0 && Cong(m, e * (py * (z * z * z)) * px, p) && Cong(m * u, 1, p)
    requires Cong(xa, px * (z * z), p) && Cong(f, u * py * xa, p)
    ensures Cong(f * (z * e), 1, p)
  {
    CongTimes(xa, px * (z * z), u * py, p);
    assert xa * (u * py) == u * py * xa;
    CongTrans(f, u * py * xa, (px * (z * z)) * (u * py), p);
    CongTimes(f, (px * (z * z)) * (u * py), z * e, p);
    FactorIdentity(e, px, py, z, u);
    CongTimes(m, e * (py * (z * z * z)) * px, u, p);
    CongSym(m * u, (e * (py * (z * z * z)) * px) * u, p);
    CongTrans((e * (py * (z * z * z)) * px) * u, m * u, 1, p);
    CongTrans(f * (z * e), (e * (py * (z * z * z)) * px) * u, 1, p);
  }

  lemma FactorIdentity(e: int, px: int, py: int, z: int, u: int)
    ensures ((px * (z * z)) * (u * py)) * (z * e) == (e * (py * (z * z * z)) * px) * u
  {
    var c := z * z * z;
    assert ((px * (z * z)) * (u * py)) * (z * e) == (px * (u * py) * e) * c;
    assert (e * (py * c) * px) * u == (px * (u * py) * e) * c;
  }

  /** The coordinates halfway, against those of P: x equal, y equal up to the sign of the last bit. */
  lemma SignedCoordinates<T(!new)>(g: Ops<T>, xy: T -> Point, p: int, px: int, py: int, t: T, bit: bool, x: int,
                                   y: int, z: int)
    requires CurveGroup(g, xy, p) && Affine(xy, p, px, py, t) && t != g.zero
    requires At(xy, p, x, y, z, Signed(g, t, bit))
    ensures Cong(x, px * (z * z), p) && Cong(y, (if bit then py else -py) * (z * z * z), p)
  {
    assert NegLaw(g, xy, p, t);
    var a := xy(Signed(g, t, bit));
    CongSym(px, xy(t).x, p);
    CongSym(py, xy(t).y, p);
    CongRefl(0, p);
    CongSub(0, 0, xy(t).y, py, p);
    if !bit {
      CongTrans(a.x, xy(t).x, px, p);
      CongTrans(a.y, -xy(t).y, -py, p);
    }
    var s := if bit then py else -py;
    CongTimes(a.x, px, z * z, p);
    CongTimes(a.y, s, z * z * z, p);
    CongTrans(x, a.x * (z * z), px * (z * z), p);
    CongTrans(y, a.y * (z * z * z), s * (z * z * z), p);
  }

  /** What the 1/Z computation leaves: m is the product that is inverted, u its inverse. */
  ghost predicate InverseSteps(p: int, r: seq<Rung>, bit: bool, px: int, py: int, m: int, u: int, z: int)
    requires p > 0 && |r| == 2
  {
    var nb := if bit then 0 else 1;
    && Cong(m, (r[1].x - r[0].x) * r[1 - nb].y * px, p)
    && (NonZero(p, m) ==> Cong(m * u, 1, p)) && (!NonZero(p, m) ==> u == 0)
    && Reduced(p, z) && Cong(z, u * py * r[1 - nb].x, p)
  }

  method InverseZ(p: int, r: seq<Rung>, bit: bool, px: int, py: int) returns (z: int, ghost m: int, ghost u: int)
    requires IsField(p) && |r| == 2
    ensures InverseSteps(p, r, bit, px, py, m, u, z)
  {
    var nb := if bit then 0 else 1;
    ghost var w := r[1].x - r[0].x;
    CongRefl(px, p);
    CongRefl(r[1 - nb].x, p);
    CongRefl(r[1 - nb].y, p);
    z := FSub(p, r[1].x, r[0].x);
    MulTo(p, z, r[1 - nb].y, w, r[1 - nb].y);
    z := FMul(p, z, r[1 - nb].y);
    MulTo(p, z, px, w * r[1 - nb].y, px);
    z := FMul(p, z, px);
    m := z;
    z := FInv(p, z);
    u := z;
    z := FMul(p, z, py);
    MulTo(p, z, r[1 - nb].x, u * py, r[1 - nb].x);
    z := FMul(p, z, r[1 - nb].x);
  }

  /** The 1/Z that ecc_point_mult derives from the difference point before the last addition. */
  lemma FinalInverse<T(!new)>(g: Ops<T>, xy: T -> Point, p: int, r: seq<Rung>, bit: bool, px: int, py: int,
                              z1: int, t: T, j: nat, m: int, u: int, z: int)
    requires CurveGroup(g, xy, p) && Affine(xy, p, px, py, t) && t != g.zero && Halfway(g, xy, p, r, z1, t, j, bit)
    requires NonZero(p, px) && NonZero(p, py) && InverseSteps(p, r, bit, px, py, m, u, z)
    requires var nb := if bit then 0 else 1; NonZero(p, z1 * (r[1 - nb].x - r[nb].x))
    ensures var nb := if bit then 0 else 1; Cong(z * (z1 * (r[1 - nb].x - r[nb].x)), 1, p)
  {
    var nb := if bit then 0 else 1;
    var e, w := r[1 - nb].x - r[nb].x, r[1].x - r[0].x;
    SignedCoordinates(g, xy, p, px, py, t, bit, r[1 - nb].x, r[1 - nb].y, z1);
    FinalProduct(p, e, w, r[1 - nb].y, py, z1, px, bit);
    CongTrans(m, w * r[1 - nb].y * px, e * (py * (z1 * z1 * z1)) * px, p);
    FinalNonZero(p, e, px, py, z1, m);
    FinalFactor(p, e, px, py, z1, m, u, r[1 - nb].x, z);
  }

  /** With a zero difference point, or a point with zero x, the factor is zero. */
  lemma LostInverse(p: int, r: seq<Rung>, bit: bool, px: int, py: int, m: int, u: int, z: int)
    requires p > 0 && |r| == 2 && InverseSteps(p, r, bit, px, py, m, u, z)
    requires HalfLost(p, r, bit) || !NonZero(p, px)
    ensures z == 0
  {
    var nb := if bit then 0 else 1;
    var f := (r[1].x - r[0].x) * r[1 - nb].y;
    CongRefl(0, p);
    if !NonZero(p, px) {
      LevelTerm(p, px, f);
      assert px * f == f * px;
    }
    CongTrans(m, f * px, 0, p);
    assert u * py * r[1 - nb].x == 0;
    CongSmall(z, 0, p);
  }

  lemma FinalNonZero(p: int, e: int, px: int, py: int, z: int, m: int)
    requires IsField(p) && NonZero(p, z * e) && NonZero(p, z) && NonZero(p, px) && NonZero(p, py)
    requires Cong(m, e * (py * (z * z * z)) * px, p)
    ensures NonZero(p, m)
  {
    if Cong(e, 0, p) {
      CongTimes(e, 0, z, p);
      assert false;
    }
    NonzeroProduct(p, z, z);
    NonzeroProduct(p, z * z, z);
    NonzeroProduct(p, py, z * z * z);
    NonzeroProduct(p, e, py * (z * z * z));
    NonzeroProduct(p, e * (py * (z * z * z)), px);
    NonZeroCong(p, m, e * (py * (z * z * z)) * px);
  }

  /** Applying 1/Z to a scaled point gives its affine coordinates. */
  lemma Unscale(p: int, x: int, y: int, z: int, w: int, a: Point)
    requires p > 0 && Rep(p, x, y, z, a) && Cong(w * z, 1, p)
    ensures Cong(x * (w * w), a.x, p) && Cong(y * (w * w * w), a.y, p)
  {
    var q := w * z;
    CongMul(q, 1, q, 1, p);
    CongMul(q * q, 1 * 1, q, 1, p);
    CongTimes(x, a.x * (z * z), w * w, p);
    assert (a.x * (z * z)) * (w * w) == (q * q) * a.x;
    CongTimes(q * q, 1 * 1, a.x, p);
    CongTrans(x * (w * w), (q * q) * a.x, a.x, p);
    CongTimes(y, a.y * (z * z * z), w * w * w, p);
    UnscaleIdentity(a.y, z, w);
    CongTimes(q * q * q, 1 * 1 * 1, a.y, p);
    CongTrans(y * (w * w * w), (q * q * q) * a.y, a.y, p);
  }

  lemma UnscaleIdentity(a: int, z: int, w: int)
    ensures (a * (z * z * z)) * (w * w * w) == ((w * z) * (w * z) * (w * z)) * a
  {
    CubeIdentity(a, z, w);
    assert z * w == w * z;
  }

  /** What the last bit leaves: the multiple, or (0, 0). */
  ghost predicate LastOutcome<T(!new)>(g: Ops<T>, xy: T -> Point, p: int, x: int, y: int, t: T, e: nat, failed: bool)
    requires p > 0
  {
    && Reduced(p, x) && Reduced(p, y)
    && (if failed then Origin(x, y) else Affine(xy, p, x, y, Mul(g, e, t)))
  }

  /** The bit that is left: addC, the 1/Z computation, add, and scaling back. */
  method LastStep<T(!new)>(p: int, rungs: seq<Rung>, bit: bool, px: int, py: int,
                     ghost g: Ops<T>, ghost xy: T -> Point, ghost n: nat, ghost z0: int, ghost t: T, ghost j: nat,
                     ghost lost: bool)
      returns (x: int, y: int)
    requires Base(g, xy, p, t, n) && Affine(xy, p, px, py, t) && NonZero(p, py) && t != g.zero
    requires Climbing(g, xy, p, n, rungs, z0, t, j, lost)
    ensures LastOutcome(g, xy, p, x, y, t, 2 * j + Small(bit), lost || Crossing(n, j) || !NonZero(p, px))
  {
    var half, zh := FirstHalf(p, rungs, bit, g, xy, n, z0, t, j, lost);
    ghost var lost' := lost || Crossing(n, j);
    var z, m, u := InverseZ(p, half, bit, px, py);
    var r, z2 := SecondHalf(p, half, bit, g, xy, n, zh, t, j, lost');
    x, y := ApplyZ(p, r[0].x, r[0].y, z);
    if lost' || !NonZero(p, px) {
      LostInverse(p, half, bit, px, py, m, u, z);
      ScaledByZero(p, r[0].x, r[0].y, x, y);
    } else {
      HalfwayApart(g, xy, p, half, zh, t, n, j, bit);
      FinalInverse(g, xy, p, half, bit, px, py, zh, t, j, m, u, z);
      var a := xy(Mul(g, 2 * j + Small(bit), t));
      Unscale(p, r[0].x, r[0].y, z2, z, a);
      CongTrans(x, r[0].x * (z * z), a.x, p);
      CongTrans(y, r[0].y * (z * z * z), a.y, p);
    }
  }

  /** (x, y) stand for t, zero being written (0, 0) as ecc_point_is_zero expects it. */
  ghost predicate Encodes<T(!new)>(g: Ops<T>, xy: T -> Point, p: int, x: int, y: int, t: T)
    requires p > 0
  {
    if t == g.zero then Origin(x, y) else Affine(xy, p, x, y, t)
  }

  /** The scalars for which ecc_point_mult is right. */
  ghost predicate Served(k: nat, n: nat)
    requires n > 0
  {
    if k >= 2 then !Meets(k, n, 1) || k % n == 0 else k == 0 && n == 3
  }

  /** ecc_point_mult, for every scalar, every point of odd order and every initial z. The result is the multiple
      by the effective scalar, or (0, 0) when the rungs meet opposite points, the point has x = 0 or z was zero.
      Otherwise said: it stands for the multiple asked for exactly for the scalars served. */
  method EccPointMult<T(!new)>(p: int, px: int, py: int, k: nat, initialZ: int,
                         ghost g: Ops<T>, ghost xy: T -> Point, ghost t: T, ghost n: nat)
      returns (x: int, y: int)
    requires Base(g, xy, p, t, n) && Affine(xy, p, px, py, t) && Reduced(p, initialZ)
    ensures LastOutcome(g, xy, p, x, y, t, Effective(k),
      initialZ == 0 || !NonZero(p, px) || Meets(Effective(k), n, 1))
    ensures NonZero(p, px) && initialZ != 0 ==> (Encodes(g, xy, p, x, y, Mul(g, k, t)) <==> Served(k, n))
  {
    BaseNonZero(g, xy, p, px, py, t, n);
    var r, z0 := InitialDouble(p, px, py, initialZ, g, xy, t);
    ghost var zl, lost;
    r, zl, lost := CoZLoop(p, r, k, g, xy, n, z0, t, initialZ == 0);
    ghost var e := Effective(k);
    LastBits(k, n);
    var bit := Bit(k, 0);
    x, y := LastStep(p, r, bit, px, py, g, xy, n, zl, t, Prefix(e, 1), lost);
    ServedExactly(g, xy, p, t, n, k, x, y, initialZ == 0 || !NonZero(p, px));
  }

  lemma BaseNonZero<T(!new)>(g: Ops<T>, xy: T -> Point, p: int, px: int, py: int, t: T, n: nat)
    requires Base(g, xy, p, t, n) && Affine(xy, p, px, py, t)
    ensures t != g.zero && g.add(t, t) != g.zero && NonZero(p, py) && Sound(n, 1)
  {
    MulOne(g, t);
    DivModUnique(1, n, 0, 1);
    DivModUnique(2, n, 0, 2);
    OrderDivides(g, t, n, 1);
    OrderDivides(g, t, n, 2);
    assert DoubleLaw(g, xy, p, t);
    NonZeroCong(p, py, xy(t).y);
  }

  lemma LastBits(k: nat, n: nat)
    requires n > 0
    ensures var e := Effective(k);
      && 2 * Prefix(e, 1) + Small(Bit(k, 0)) == e && (Meets(e, n, 1) <==> Crossing(n, Prefix(e, 1)) || Meets(e, n, 2))
  {
    var e := Effective(k);
    NumBitsMono(e);
    PrefixStep(e, 0);
    assert Bit(e, 0) == Bit(k, 0);
  }

  /** A leading part of the scalar that met no opposite points leaves nonzero rungs. */
  lemma {:induction false} SoundUnlessMet(k: nat, n: nat, i: nat)
    requires n > 1 && n % 2 == 1 && k >= 2 && i < NumBits(k) && !Meets(k, n, i + 1)
    ensures Sound(n, Prefix(k, i))
    decreases NumBits(k) - i
  {
    TopBit(k);
    if i + 1 == NumBits(k) {
      DivModUnique(1, n, 0, 1);
      DivModUnique(2, n, 0, 2);
    } else {
      SoundUnlessMet(k, n, i + 1);
      SoundNext(n, Prefix(k, i + 1), Bit(k, i));
      PrefixStep(k, i);
    }
  }

  /** No point of odd order has y = 0. */
  lemma ZeroIsNoMultiple<T(!new)>(g: Ops<T>, xy: T -> Point, p: int, t: T, n: nat, k: nat, x: int, y: int)
    requires Base(g, xy, p, t, n) && k % n != 0 && Origin(x, y)
    ensures !Affine(xy, p, x, y, Mul(g, k, t))
  {
    var a := Mul(g, k, t);
    OddDouble(n, k);
    OrderDivides(g, t, n, k);
    OrderDivides(g, t, n, 2 * k);
    MulAdd(g, k, k, t);
    assert DoubleLaw(g, xy, p, a);
    if Cong(0, xy(a).y, p) { CongSym(0, xy(a).y, p); }
  }

  /** 3 P has other coordinates than P. */
  lemma TripleDiffers<T(!new)>(g: Ops<T>, xy: T -> Point, p: int, t: T, n: nat, x: int, y: int)
    requires Base(g, xy, p, t, n) && n != 3 && Affine(xy, p, x, y, Mul(g, 3, t))
    ensures !Affine(xy, p, x, y, Mul(g, 1, t))
  {
    DivModUnique(1, n, 0, 1);
    DivModUnique(2, n, 0, 2);
    DivModUnique(3, n, 0, 3);
    DivModUnique(4, n, 0, 4);
    MultiplesApart(g, t, n, 1, 3);
    var a, b := Mul(g, 1, t), Mul(g, 3, t);
    assert SumLaw(g, xy, p, a, b);
    if Cong(x, xy(a).x, p) {
      CongSym(x, xy(a).x, p);
      CongTrans(xy(a).x, x, xy(b).x, p);
    }
  }

  /** Of the effective scalars 2 and 3, the rungs P and 2 P are opposite exactly at order three. */
  lemma ShortMeets(k: nat, n: nat)
    requires n > 1 && n % 2 == 1 && k < 2
    ensures Meets(k + 2, n, 1) <==> n == 3
  {
    EffectiveBits(k, n);
    if n > 3 { DivModUnique(3, n, 0, 3); }
    assert Crossing(n, Prefix(k + 2, 1)) <==> 3 % n == 0;
  }

  /** The outcome is the multiple asked for exactly when the scalar is served. */
  lemma ServedExactly<T(!new)>(g: Ops<T>, xy: T -> Point, p: int, t: T, n: nat, k: nat, x: int, y: int, void: bool)
    requires Base(g, xy, p, t, n) && LastOutcome(g, xy, p, x, y, t, Effective(k), void || Meets(Effective(k), n, 1))
    ensures !void ==> (Encodes(g, xy, p, x, y, Mul(g, k, t)) <==> Served(k, n))
  {
    OrderDivides(g, t, n, k);
    if void {
    } else if k >= 2 {
      NumBitsMono(k);
      if !Meets(k, n, 1) {
        SoundUnlessMet(k, n, 0);
      } else if k % n != 0 {
        ZeroIsNoMultiple(g, xy, p, t, n, k, x, y);
      }
    } else {
      ShortMeets(k, n);
      DivModUnique(k, n, 0, k);
      ShortScalars(g, xy, p, t, n, k, x, y);
    }
  }

  lemma ShortScalars<T(!new)>(g: Ops<T>, xy: T -> Point, p: int, t: T, n: nat, k: nat, x: int, y: int)
    requires Base(g, xy, p, t, n) && k < 2 && LastOutcome(g, xy, p, x, y, t, k + 2, n == 3)
    ensures Encodes(g, xy, p, x, y, Mul(g, k, t)) <==> k == 0 && n == 3
  {
    DivModUnique(k, n, 0, k);
    OrderDivides(g, t, n, k);
    if n == 3 {
      if k == 1 { ZeroIsNoMultiple(g, xy, p, t, n, 1, x, y); }
    } else if k == 1 {
      TripleDiffers(g, xy, p, t, n, x, y);
    } else {
      DivModUnique(2, n, 0, 2);
      if Origin(x, y) { ZeroIsNoMultiple(g, xy, p, t, n, 2, x, y); }
    }
  }

  lemma {:induction false} PrefixAtMostHalf(k: nat, i: nat)
    requires i > 0
    ensures 2 * Prefix(k, i) <= k
  {
    if i > 1 { PrefixAtMostHalf(k, i - 1); } else { assert Prefix(k, 1) == Prefix(k, 0) / 2; }
  }

  lemma {:induction false} MeetsBelow(k: nat, n: nat, i: nat)
    requires 0 < i && k < n && Meets(k, n, i)
    ensures k == n - 1
    decreases NumBits(k) - i
  {
    if Crossing(n, Prefix(k, i)) {
      PrefixAtMostHalf(k, i);
      var m := 2 * Prefix(k, i) + 1;
      if m < n { DivModUnique(m, n, 0, m); assert false; }
    } else {
      MeetsBelow(k, n, i + 1);
    }
  }

  /** Below an order above three the scalars served are those from 2 to n - 2; n - 1 gives (0, 0) and 0 and 1
      give 2 P and 3 P. */
  lemma ServedBelowOrder(k: nat, n: nat)
    requires n > 3 && n % 2 == 1 && k < n
    ensures Served(k, n) <==> 2 <= k <= n - 2
    ensures Meets(Effective(k), n, 1) <==> k == n - 1
  {
    if k < 2 {
      ShortMeets(k, n);
    } else {
      DivModUnique(k, n, 0, k);
      if Meets(k, n, 1) { MeetsBelow(k, n, 1); }
      if k == n - 1 {
        NumBitsMono(k);
        PrefixStep(k, 0);
        assert 2 * Prefix(k, 1) + 1 == n;
        DivModUnique(n, n, 1, 0);
      }
    }
  }
}
