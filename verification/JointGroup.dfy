/** What ecc_point_add and ecc_point_mult2 return for points of a curve group: exactly when it is the sum asked for. */
module JointGroup {
  import opened Arith
  import opened Field
  import opened CoZ
  import opened Cusp
  import opened CurveRep
  import opened AffinePoints
  import opened Group
  import opened Scalars
  import opened PointMult
  import opened Shamir

  /** (0, 0) are not the coordinates of t. */
  ghost predicate OffOrigin<T(!new)>(xy: T -> Point, p: int, t: T)
    requires p > 0
  {
    NonZero(p, xy(t).x) || NonZero(p, xy(t).y)
  }

  lemma OriginDiffers<T(!new)>(g: Ops<T>, xy: T -> Point, p: int, t: T, x: int, y: int)
    requires p > 0 && Origin(x, y)
    ensures OffOrigin(xy, p, t) ==> (Encodes(g, xy, p, x, y, t) <==> t == g.zero)
  {
    if Cong(0, xy(t).x, p) { CongSym(0, xy(t).x, p); }
    if Cong(0, xy(t).y, p) { CongSym(0, xy(t).y, p); }
  }

  // ----- affine values of group elements -----

  lemma SameBack(p: int, a: Point, b: Point)
    requires p > 0 && Same(p, a, b)
    ensures Same(p, b, a)
  {
    CongSym(a.x, b.x, p);
    CongSym(a.y, b.y, p);
  }

  lemma SameTrans(p: int, a: Point, b: Point, c: Point)
    requires p > 0 && Same(p, a, b) && Same(p, b, c)
    ensures Same(p, a, c)
  {
    CongTrans(a.x, b.x, c.x, p);
    CongTrans(a.y, b.y, c.y, p);
  }

  lemma XDiffers(p: int, a: int, b: int, u: int, v: int)
    requires p > 0 && Cong(a, u, p) && Cong(b, v, p)
    ensures Cong(b - a, 0, p) <==> Cong(u, v, p)
  {
    CongSub(b, v, a, u, p);
    CongSym(b - a, v - u, p);
    CongRefl(u, p);
    if Cong(b - a, 0, p) {
      CongTrans(v - u, b - a, 0, p);
      CongAdd(v - u, 0, u, u, p);
      CongSym(v, u, p);
    }
    if Cong(u, v, p) {
      CongSym(u, v, p);
      CongSub(v, u, u, u, p);
      CongTrans(b - a, v - u, 0, p);
    }
  }

  /** Points apart have their group sum as chord sum; equal or opposite ones have none. */
  lemma GroupPlus<T(!new)>(g: Ops<T>, xy: T -> Point, p: int, a: T, b: T, u: Point, v: Point)
    requires CurveGroup(g, xy, p) && a != g.zero && b != g.zero && Same(p, u, xy(a)) && Same(p, v, xy(b))
    ensures if Apart(g, a, b) then Plus(p, u, v).Pt? && Same(p, Plus(p, u, v).at, xy(g.add(a, b)))
            else Plus(p, u, v).Void?
  {
    XDiffers(p, u.x, v.x, xy(a).x, xy(b).x);
    if Apart(g, a, b) {
      assert SumLaw(g, xy, p, a, b);
      SameBack(p, u, xy(a));
      SameBack(p, v, xy(b));
      ChordSame(p, xy(a), xy(b), u, v, xy(g.add(a, b)));
      OneChord(p, u, v, Plus(p, u, v).at, xy(g.add(a, b)));
    } else {
      CongRefl(xy(a).x, p);
      if a != b { assert NegLaw(g, xy, p, b); }
    }
  }

  /** A point has its group double as tangent double, unless that is zero. */
  lemma GroupTwice<T(!new)>(g: Ops<T>, xy: T -> Point, p: int, r: T, q: Point)
    requires CurveGroup(g, xy, p) && r != g.zero && Same(p, q, xy(r))
    ensures if g.add(r, r) == g.zero then Twice(p, q).Void?
            else Twice(p, q).Pt? && Same(p, Twice(p, q).at, xy(g.add(r, r)))
  {
    if g.add(r, r) == g.zero {
      FlatPoint(g, xy, p, r);
      CongTrans(q.y, xy(r).y, 0, p);
    } else {
      assert DoubleLaw(g, xy, p, r);
      NonZeroCong(p, q.y, xy(r).y);
      SameBack(p, q, xy(r));
      TangentSame(p, xy(r), q, xy(g.add(r, r)));
      OneTangent(p, q, Twice(p, q).at, xy(g.add(r, r)));
    }
  }

  /** A point whose double is zero has y = 0. */
  lemma FlatPoint<T(!new)>(g: Ops<T>, xy: T -> Point, p: int, r: T)
    requires CurveGroup(g, xy, p) && r != g.zero && g.add(r, r) == g.zero
    ensures Cong(xy(r).y, 0, p)
  {
    NegUnique(g, r, r);
    assert NegLaw(g, xy, p, r);
    DoubleZero(p, xy(r).y);
  }

  // ----- addition -----

  lemma ChordSwap(p: int, a: Point, b: Point, c: Point)
    requires p > 0 && Chord(p, a, b, c)
    ensures Chord(p, b, a, c)
  {
    var l: int :| Slope(p, l, a, b) && OnLine(p, l, a, b.x, c);
    CongRefl(0, p);
    CongSub(0, 0, l * (b.x - a.x), b.y - a.y, p);
    assert 0 - l * (b.x - a.x) == l * (a.x - b.x);
    SwapValue(p, l, a, b, c);
    assert Slope(p, l, b, a) && OnLine(p, l, b, a.x, c);
  }

  lemma SwapValue(p: int, l: int, a: Point, b: Point, c: Point)
    requires p > 0 && Cong(l * (b.x - a.x), b.y - a.y, p) && Cong(c.y, l * (a.x - c.x) - a.y, p)
    ensures Cong(c.y, l * (b.x - c.x) - b.y, p)
  {
    var m := l * (b.x - a.x);
    assert l * (a.x - c.x) == l * (b.x - c.x) - m;
    CongRefl(l * (b.x - c.x), p);
    CongSub(l * (b.x - c.x), l * (b.x - c.x), m, b.y - a.y, p);
    CongRefl(a.y, p);
    CongSub(l * (a.x - c.x), l * (b.x - c.x) - (b.y - a.y), a.y, a.y, p);
    CongTrans(c.y, l * (a.x - c.x) - a.y, l * (b.x - c.x) - (b.y - a.y) - a.y, p);
  }

  /** Adding (0, 0) on either side gives no point back. */
  lemma ZeroOperand(p: int, b: Point, o: Point, left: bool)
    requires IsField(p) && p % 2 == 1 && !Same(p, b, o) && o == Point(0, 0)
    ensures var v := if left then Plus(p, o, b) else Plus(p, b, o); v.Pt? ==> !Same(p, v.at, b)
  {
    ZeroAdded(p, b);
    var v := Plus(p, b, o);
    if !left && v.Pt? && Same(p, v.at, b) {
      ChordSwap(p, b, o, v.at);
      CongRefl(b.x, p);
      CongRefl(o.x, p);
      XDiffers(p, b.x, o.x, b.x, o.x);
      XDiffers(p, o.x, b.x, o.x, b.x);
      if Cong(b.x - o.x, 0, p) { CongSym(o.x, b.x, p); }
      OneChord(p, o, b, Plus(p, o, b).at, v.at);
      SameTrans(p, Plus(p, o, b).at, v.at, b);
      assert false;
    }
  }

  /** Main result: ecc_point_add stands for the sum exactly if both operands are zero, or neither is and they differ or
      cancel. */
  lemma SumExact<T(!new)>(g: Ops<T>, xy: T -> Point, p: int, a: T, b: T, u: Point, v: Point, x: int, y: int)
    requires CurveGroup(g, xy, p) && Encodes(g, xy, p, u.x, u.y, a) && Encodes(g, xy, p, v.x, v.y, b)
    requires OffOrigin(xy, p, a) && OffOrigin(xy, p, b) && OffOrigin(xy, p, g.add(a, b))
    requires Shown(p, x, y, Plus(p, u, v))
    ensures Encodes(g, xy, p, x, y, g.add(a, b)) <==>
      if a == g.zero || b == g.zero then a == b else a != b || g.add(a, b) == g.zero
  {
    Unit(g, a);
    Unit(g, b);
    if a == g.zero && b == g.zero {
      CongRefl(0, p);
    } else if a == g.zero {
      ZeroSum(g, xy, p, b, u, v, x, y, true);
    } else if b == g.zero {
      ZeroSum(g, xy, p, a, v, u, x, y, false);
    } else {
      NegUnique(g, a, b);
      GroupPlus(g, xy, p, a, b, u, v);
      if Apart(g, a, b) {
        var q := Plus(p, u, v).at;
        CongTrans(x, q.x, xy(g.add(a, b)).x, p);
        CongTrans(y, q.y, xy(g.add(a, b)).y, p);
      } else {
        OriginDiffers(g, xy, p, g.add(a, b), x, y);
      }
    }
  }

  lemma ZeroSum<T(!new)>(g: Ops<T>, xy: T -> Point, p: int, b: T, u: Point, v: Point, x: int, y: int, left: bool)
    requires CurveGroup(g, xy, p) && b != g.zero && Origin(u.x, u.y) && Same(p, v, xy(b)) && OffOrigin(xy, p, b)
    requires Shown(p, x, y, if left then Plus(p, u, v) else Plus(p, v, u))
    ensures !Encodes(g, xy, p, x, y, b)
  {
    var w := if left then Plus(p, u, v) else Plus(p, v, u);
    SameBack(p, v, xy(b));
    if Same(p, v, u) { SameTrans(p, xy(b), v, u); assert false; }
    ZeroOperand(p, v, u, left);
    if w.Void? {
      OriginDiffers(g, xy, p, b, x, y);
    } else if Affine(xy, p, x, y, b) {
      SameBack(p, Point(x, y), w.at);
      SameTrans(p, w.at, Point(x, y), xy(b));
      SameTrans(p, w.at, xy(b), v);
    }
  }

  // ----- joint multiplication -----

  /** The running point at bit i. */
  ghost function Running<T(!new)>(g: Ops<T>, a: T, b: T, s: nat, t: nat, i: nat): T {
    Joint(g, a, b, Prefix(s, i), Prefix(t, i))
  }

  /** No addition of the loop meets a special case: neither zero, nor a doubling, nor a cancellation. */
  ghost predicate Generic<T(!new)>(g: Ops<T>, a: T, b: T, s: nat, t: nat, i: nat) {
    var r := Running(g, a, b, s, t, i + 1);
    && r != g.zero && g.add(r, r) != g.zero
    && (Bit(s, i) || Bit(t, i) ==> Apart(g, Pick(g, a, b, Bit(s, i), Bit(t, i)), g.add(r, r)))
  }

  ghost predicate AllGeneric<T(!new)>(g: Ops<T>, a: T, b: T, s: nat, t: nat) {
    forall i: nat :: i + 1 < Max(NumBits(s), NumBits(t)) ==> Generic(g, a, b, s, t, i)
  }

  /** The table serves a pair of bits unless both are set and G + P could not be computed. */
  ghost predicate Usable<T(!new)>(g: Ops<T>, a: T, b: T, sb: bool, tb: bool) {
    sb && tb ==> Apart(g, a, b)
  }

  /** The table in coordinates; the sum counts only if G and P are apart. */
  ghost predicate Table<T(!new)>(g: Ops<T>, xy: T -> Point, p: int, ps: seq<Point>, a: T, b: T)
    requires p > 0
  {
    && |ps| == 3 && a != g.zero && b != g.zero && Same(p, ps[0], xy(a)) && Same(p, ps[1], xy(b))
    && (Apart(g, a, b) ==> Same(p, ps[2], xy(g.add(a, b))))
  }

  lemma TableGroup<T(!new)>(g: Ops<T>, xy: T -> Point, p: int, a: T, b: T, u: Point, v: Point)
    requires CurveGroup(g, xy, p) && a != g.zero && b != g.zero && Same(p, u, xy(a)) && Same(p, v, xy(b))
    ensures Table(g, xy, p, TableOf(p, u, v), a, b)
    ensures !Apart(g, a, b) ==> TableOf(p, u, v)[2] == Point(0, 0)
  {
    GroupPlus(g, xy, p, a, b, u, v);
  }

  lemma EntrySame<T(!new)>(g: Ops<T>, xy: T -> Point, p: int, ps: seq<Point>, a: T, b: T, sb: bool, tb: bool)
    requires CurveGroup(g, xy, p) && Table(g, xy, p, ps, a, b) && (sb || tb) && Usable(g, a, b, sb, tb)
    ensures Same(p, Entry(ps, sb, tb), xy(Pick(g, a, b, sb, tb))) && Pick(g, a, b, sb, tb) != g.zero
  {
    NegUnique(g, a, b);
  }

  /** v is r in coordinates. */
  ghost predicate Means<T(!new)>(g: Ops<T>, xy: T -> Point, p: int, v: Value, r: T)
    requires p > 0
  {
    v.Pt? && r != g.zero && Same(p, v.at, xy(r))
  }

  /** Doubling w and adding u, if anything is added, meet no special case. */
  ghost predicate Plain<T(!new)>(g: Ops<T>, w: T, u: T, adds: bool) {
    w != g.zero && g.add(w, w) != g.zero && (adds ==> Apart(g, u, g.add(w, w)))
  }

  /** A plain step from w leads to 2 w + u, any other to nothing. */
  lemma StepFrom<T(!new)>(g: Ops<T>, xy: T -> Point, p: int, ps: seq<Point>, a: T, b: T, sb: bool, tb: bool, w: T,
                          v: Value)
    requires CurveGroup(g, xy, p) && Table(g, xy, p, ps, a, b) && Usable(g, a, b, sb, tb) && Means(g, xy, p, v, w)
    ensures var v', u := StepValue(p, ps, v, sb, tb), Pick(g, a, b, sb, tb);
      if Plain(g, w, u, sb || tb) then Means(g, xy, p, v', g.add(g.add(w, w), u)) else v'.Void?
  {
    var u, d := Pick(g, a, b, sb, tb), g.add(w, w);
    GroupTwice(g, xy, p, w, v.at);
    Unit(g, d);
    if d != g.zero && (sb || tb) {
      EntrySame(g, xy, p, ps, a, b, sb, tb);
      GroupPlus(g, xy, p, u, d, Entry(ps, sb, tb), Twice(p, v.at).at);
      Comm(g, d, u);
      NegUnique(g, u, d);
    }
  }

  /** A generic step leads to the next running point, any other to nothing. */
  lemma StepIsGroup<T(!new)>(g: Ops<T>, xy: T -> Point, p: int, ps: seq<Point>, a: T, b: T, s: nat, t: nat, i: nat,
                             v: Value)
    requires CurveGroup(g, xy, p) && Table(g, xy, p, ps, a, b) && Usable(g, a, b, Bit(s, i), Bit(t, i))
    requires Means(g, xy, p, v, Running(g, a, b, s, t, i + 1))
    ensures var v' := StepValue(p, ps, v, Bit(s, i), Bit(t, i));
      if Generic(g, a, b, s, t, i) then Means(g, xy, p, v', Running(g, a, b, s, t, i)) else v'.Void?
  {
    var r, u := Running(g, a, b, s, t, i + 1), Pick(g, a, b, Bit(s, i), Bit(t, i));
    JointStep(g, a, b, s, t, i, r, g.add(g.add(r, r), u));
    StepFrom(g, xy, p, ps, a, b, Bit(s, i), Bit(t, i), r, v);
  }

  /** Points apart, or no bit set in both scalars: the entry G + P is right or never used. */
  ghost predicate TableServes<T(!new)>(g: Ops<T>, a: T, b: T, s: nat, t: nat) {
    Apart(g, a, b) || forall i: nat :: !(Bit(s, i) && Bit(t, i))
  }

  ghost predicate GenericFrom<T(!new)>(g: Ops<T>, a: T, b: T, s: nat, t: nat, i: nat) {
    forall j: nat :: i <= j && j + 1 < Max(NumBits(s), NumBits(t)) ==> Generic(g, a, b, s, t, j)
  }

  lemma GenericMore<T(!new)>(g: Ops<T>, a: T, b: T, s: nat, t: nat, i: nat)
    requires GenericFrom(g, a, b, s, t, i + 1) && i + 1 < Max(NumBits(s), NumBits(t))
    ensures GenericFrom(g, a, b, s, t, i) <==> Generic(g, a, b, s, t, i)
  {
  }

  lemma TopIsGroup<T(!new)>(g: Ops<T>, xy: T -> Point, p: int, ps: seq<Point>, a: T, b: T, s: nat, t: nat, i: nat)
    requires CurveGroup(g, xy, p) && Table(g, xy, p, ps, a, b) && TableServes(g, a, b, s, t) && (s > 0 || t > 0)
    requires i + 1 == Max(NumBits(s), NumBits(t))
    ensures Means(g, xy, p, JointValue(p, ps, s, t, i), Running(g, a, b, s, t, i))
  {
    TopPick(s, t);
    JointTop(g, a, b, s, t, i + 1);
    EntrySame(g, xy, p, ps, a, b, Bit(s, i), Bit(t, i));
  }

  /** After the bits down to i the value is the running point, or nothing if a step was special. */
  ghost predicate Follows<T(!new)>(g: Ops<T>, xy: T -> Point, p: int, a: T, b: T, s: nat, t: nat, i: nat, v: Value)
    requires p > 0
  {
    if GenericFrom(g, a, b, s, t, i) then Means(g, xy, p, v, Running(g, a, b, s, t, i)) else v.Void?
  }

  lemma FollowsNext<T(!new)>(g: Ops<T>, xy: T -> Point, p: int, ps: seq<Point>, a: T, b: T, s: nat, t: nat, i: nat,
                             v: Value)
    requires CurveGroup(g, xy, p) && Table(g, xy, p, ps, a, b) && Usable(g, a, b, Bit(s, i), Bit(t, i))
    requires i + 1 < Max(NumBits(s), NumBits(t)) && Follows(g, xy, p, a, b, s, t, i + 1, v)
    ensures Follows(g, xy, p, a, b, s, t, i, StepValue(p, ps, v, Bit(s, i), Bit(t, i)))
  {
    if GenericFrom(g, a, b, s, t, i + 1) {
      StepIsGroup(g, xy, p, ps, a, b, s, t, i, v);
      GenericMore(g, a, b, s, t, i);
    }
  }

  lemma {:induction false} JointIsGroup<T(!new)>(g: Ops<T>, xy: T -> Point, p: int, ps: seq<Point>, a: T, b: T,
                                                 s: nat, t: nat, i: nat)
    requires CurveGroup(g, xy, p) && Table(g, xy, p, ps, a, b) && TableServes(g, a, b, s, t) && (s > 0 || t > 0)
    requires i < Max(NumBits(s), NumBits(t))
    ensures Follows(g, xy, p, a, b, s, t, i, JointValue(p, ps, s, t, i))
    decreases Max(NumBits(s), NumBits(t)) - i
  {
    if i + 1 == Max(NumBits(s), NumBits(t)) {
      TopIsGroup(g, xy, p, ps, a, b, s, t, i);
    } else {
      JointIsGroup(g, xy, p, ps, a, b, s, t, i + 1);
      FollowsNext(g, xy, p, ps, a, b, s, t, i, JointValue(p, ps, s, t, i + 1));
    }
  }

  /** Main result: where the table serves the scalars ecc_point_mult2 gives s G + t P if no doubling gives zero and no
      addition meets equal or opposite points, and (0, 0) otherwise; so it stands for s G + t P exactly if none is
      special or zero was asked for. */
  lemma JointExact<T(!new)>(g: Ops<T>, xy: T -> Point, p: int, a: T, b: T, u: Point, v: Point, s: nat, t: nat, x: int,
                            y: int)
    requires CurveGroup(g, xy, p) && a != g.zero && b != g.zero && Same(p, u, xy(a)) && Same(p, v, xy(b))
    requires (s > 0 || t > 0) && TableServes(g, a, b, s, t) && Shown(p, x, y, JointValue(p, TableOf(p, u, v), s, t, 0))
    ensures if AllGeneric(g, a, b, s, t) then Affine(xy, p, x, y, Joint(g, a, b, s, t)) else Origin(x, y)
    ensures OffOrigin(xy, p, Joint(g, a, b, s, t)) ==>
      (Encodes(g, xy, p, x, y, Joint(g, a, b, s, t)) <==> AllGeneric(g, a, b, s, t) || Joint(g, a, b, s, t) == g.zero)
  {
    var ps, r := TableOf(p, u, v), Joint(g, a, b, s, t);
    TopPick(s, t);
    TableGroup(g, xy, p, a, b, u, v);
    JointIsGroup(g, xy, p, ps, a, b, s, t, 0);
    assert GenericFrom(g, a, b, s, t, 0) <==> AllGeneric(g, a, b, s, t);
    if AllGeneric(g, a, b, s, t) {
      SameTrans(p, Point(x, y), JointValue(p, ps, s, t, 0).at, xy(r));
    } else {
      OriginDiffers(g, xy, p, r, x, y);
    }
  }

  /** An input that fails: P = G and both scalars 1 give (0, 0), and 2 G was asked for. */
  lemma SamePointFails<T(!new)>(g: Ops<T>, xy: T -> Point, p: int, a: T, u: Point, x: int, y: int)
    requires CurveGroup(g, xy, p) && g.add(a, a) != g.zero && a != g.zero && Same(p, u, xy(a))
    requires Shown(p, x, y, JointValue(p, TableOf(p, u, u), 1, 1, 0))
    ensures Origin(x, y) && Joint(g, a, a, 1, 1) == g.add(a, a)
  {
    MulOne(g, a);
    TableGroup(g, xy, p, a, a, u, u);
    assert NumBits(1) == 1 + NumBits(0) && Prefix(1, 0) == 1;
    TopPick(1, 1);
    CongSmall(x, 0, p);
    CongSmall(y, 0, p);
  }

  /** Another, with G and P apart: P = 2 G and the scalars 2 and 1 double G and then add it to itself. */
  lemma EqualStepFails<T(!new)>(g: Ops<T>, a: T, n: nat)
    requires Abelian(g) && HasOrder(g, a, n) && n >= 5
    ensures var b := g.add(a, a); Apart(g, a, b) && !AllGeneric(g, a, b, 2, 1) && Joint(g, a, b, 2, 1) != g.zero
  {
    var b := g.add(a, a);
    MulOne(g, a);
    MulOne(g, b);
    DivModUnique(1, n, 0, 1);
    DivModUnique(2, n, 0, 2);
    DivModUnique(3, n, 0, 3);
    DivModUnique(4, n, 0, 4);
    MultiplesApart(g, a, n, 1, 2);
    MulAdd(g, 2, 2, a);
    OrderDivides(g, a, n, 4);
    assert NumBits(1) == 1 + NumBits(0) && NumBits(2) == 1 + NumBits(1);
    assert Prefix(2, 0) == 2 && Prefix(2, 1) == 1 && Prefix(1, 0) == 1 && Prefix(1, 1) == 0;
    Unit(g, a);
    assert !Generic(g, a, b, 2, 1, 0);
  }

  lemma JointScalar<T(!new)>(g: Ops<T>, a: T, d: nat, u: nat, v: nat)
    requires Abelian(g)
    ensures Joint(g, a, Mul(g, d, a), u, v) == Mul(g, u + v * d, a)
  {
    MulMul(g, v, d, a);
    MulAdd(g, u, v * d, a);
  }

  lemma ApartScalars<T(!new)>(g: Ops<T>, a: T, n: nat, e: nat, w: nat)
    requires Abelian(g) && HasOrder(g, a, n)
    ensures Apart(g, Mul(g, e, a), Mul(g, w, a)) <==> e % n != 0 && w % n != 0 && e % n != w % n && (e + w) % n != 0
  {
    OrderDivides(g, a, n, e);
    OrderDivides(g, a, n, w);
    MulEqual(g, a, n, e, w);
  }

  /** The condition on the scalars when P = d G and G has order n: with the leading parts u and v above bit i, twice
      u + v d is neither zero nor, if a bit is set, plus or minus what the bits add, all modulo n. */
  ghost predicate GenericNumbers(d: nat, n: nat, s: nat, t: nat, i: nat)
    requires n > 0
  {
    var m := Prefix(s, i + 1) + Prefix(t, i + 1) * d; var e := Small(Bit(s, i)) + Small(Bit(t, i)) * d;
    && m % n != 0 && (m + m) % n != 0
    && (Bit(s, i) || Bit(t, i) ==> e % n != 0 && e % n != (m + m) % n && (e + (m + m)) % n != 0)
  }

  lemma GenericScalars<T(!new)>(g: Ops<T>, a: T, d: nat, n: nat, s: nat, t: nat, i: nat)
    requires Abelian(g) && HasOrder(g, a, n)
    ensures Generic(g, a, Mul(g, d, a), s, t, i) <==> GenericNumbers(d, n, s, t, i)
  {
    var b := Mul(g, d, a);
    JointScalar(g, a, d, Prefix(s, i + 1), Prefix(t, i + 1));
    JointScalar(g, a, d, Small(Bit(s, i)), Small(Bit(t, i)));
    PickIsJoint(g, a, b, Bit(s, i), Bit(t, i));
    ScalarStep(g, a, b, n, s, t, i, Prefix(s, i + 1) + Prefix(t, i + 1) * d, Small(Bit(s, i)) + Small(Bit(t, i)) * d);
  }

  lemma ScalarStep<T(!new)>(g: Ops<T>, a: T, b: T, n: nat, s: nat, t: nat, i: nat, m: nat, e: nat)
    requires Abelian(g) && HasOrder(g, a, n)
    requires Running(g, a, b, s, t, i + 1) == Mul(g, m, a) && Pick(g, a, b, Bit(s, i), Bit(t, i)) == Mul(g, e, a)
    ensures Generic(g, a, b, s, t, i) <==>
      && m % n != 0 && (m + m) % n != 0
      && (Bit(s, i) || Bit(t, i) ==> e % n != 0 && e % n != (m + m) % n && (e + (m + m)) % n != 0)
  {
    MulAdd(g, m, m, a);
    OrderDivides(g, a, n, m);
    OrderDivides(g, a, n, m + m);
    ApartScalars(g, a, n, e, m + m);
  }
}
