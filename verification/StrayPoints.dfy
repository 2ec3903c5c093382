/** ecc_point_mult2 where G + P could not be computed: P is G or -G and both scalars have a one in the same place. The
    entry (0, 0) is then added as if it were a point, and the running point strays from the curve. */
module StrayPoints {
  import opened Arith
  import opened Field
  import opened CoZ
  import opened Cusp
  import opened CurveRep
  import opened CurveEquation
  import opened AffinePoints
  import opened Group
  import opened Scalars
  import opened PointMult
  import opened Shamir
  import opened JointGroup

  // ----- the curve -----

  ghost predicate LiesOn<T(!new)>(g: Ops<T>, xy: T -> Point, p: int, b: int, t: T)
    requires p > 0
  {
    t != g.zero ==> OnCurve(p, b, xy(t))
  }

  ghost predicate HasPoint<T(!new)>(g: Ops<T>, xy: T -> Point, p: int, b: int, q: Point)
    requires p > 0
  {
    OnCurve(p, b, q) ==> exists t: T :: Names(g, xy, p, q, t)
  }

  ghost predicate Names<T(!new)>(g: Ops<T>, xy: T -> Point, p: int, q: Point, t: T)
    requires p > 0
  {
    t != g.zero && Same(p, q, xy(t))
  }

  ghost predicate NoHalf<T(!new)>(g: Ops<T>, t: T) {
    g.add(t, t) == g.zero ==> t == g.zero
  }

  /** The group is the whole curve y^2 = x^3 - 3x + b with b other than zero, and of odd order. */
  ghost predicate WholeCurve<T(!new)>(g: Ops<T>, xy: T -> Point, p: int, b: int) {
    && CurveGroup(g, xy, p) && !Cong(b, 0, p) && (forall t: T :: LiesOn(g, xy, p, b, t))
    && (forall q: Point :: HasPoint(g, xy, p, b, q)) && (forall t: T :: NoHalf(g, t))
  }

  /** (0, 0) is not on the curve. */
  lemma OriginOff(p: int, b: int, q: Point)
    requires p > 0 && !Cong(b, 0, p) && Cong(q.x, 0, p) && Cong(q.y, 0, p)
    ensures !OnCurve(p, b, q)
  {
    ZeroResidue(p, q);
    NotBoth(p, b, Residue(q));
  }

  lemma ZeroResidue(p: int, q: Point)
    requires p > 0 && Cong(q.x, 0, p) && Cong(q.y, 0, p)
    ensures Cong(Residue(q), 0, p)
  {
    ResidueSame(p, q, Point(0, 0));
    assert Residue(Point(0, 0)) == 0;
  }

  lemma NotBoth(p: int, b: int, r: int)
    requires p > 0 && !Cong(b, 0, p) && Cong(r, 0, p)
    ensures !Cong(r, b, p)
  {
    if Cong(r, b, p) {
      CongSym(r, b, p);
      CongTrans(b, r, 0, p);
    }
  }

  lemma OnCurveSame(p: int, b: int, q: Point, q': Point)
    requires p > 0 && Same(p, q, q')
    ensures OnCurve(p, b, q) <==> OnCurve(p, b, q')
  {
    ResidueSame(p, q, q');
    SameBack(p, q, q');
    ResidueSame(p, q', q);
    if OnCurve(p, b, q) { CongTrans(Residue(q'), Residue(q), b, p); }
    if OnCurve(p, b, q') { CongTrans(Residue(q), Residue(q'), b, p); }
  }

  lemma ElementOn<T(!new)>(g: Ops<T>, xy: T -> Point, p: int, b: int, q: Point, t: T)
    requires WholeCurve(g, xy, p, b) && Names(g, xy, p, q, t)
    ensures OnCurve(p, b, q)
  {
    assert LiesOn(g, xy, p, b, t);
    OnCurveSame(p, b, q, xy(t));
  }

  /** A point has one name. */
  lemma OneName<T(!new)>(g: Ops<T>, xy: T -> Point, p: int, b: int, q: Point, s: T, t: T)
    requires WholeCurve(g, xy, p, b) && Names(g, xy, p, q, s) && Names(g, xy, p, q, t)
    ensures s == t
  {
    CongSym(q.x, xy(s).x, p);
    CongTrans(xy(s).x, q.x, xy(t).x, p);
    assert SumLaw(g, xy, p, s, t) && NegLaw(g, xy, p, t) && DoubleLaw(g, xy, p, t) && NoHalf(g, t);
    if s == g.neg(t) { Opposite(p, q, xy(s), xy(t)); }
  }

  lemma Opposite(p: int, q: Point, a: Point, b: Point)
    requires p > 0 && p % 2 == 1 && Cong(q.y, a.y, p) && Cong(q.y, b.y, p) && Cong(a.y, -b.y, p)
    ensures Cong(b.y, 0, p)
  {
    CongSym(q.y, b.y, p);
    CongTrans(b.y, q.y, a.y, p);
    CongTrans(b.y, a.y, -b.y, p);
    DoubleZero(p, b.y);
  }

  // ----- chords through points off the curve -----

  lemma Difference(p: int, a: int, b: int)
    requires p > 0
    ensures Cong(a - b, 0, p) <==> Cong(a, b, p)
  {
    CongRefl(b, p);
    if Cong(a - b, 0, p) { CongAdd(a - b, 0, b, b, p); }
    if Cong(a, b, p) { CongSub(a, b, b, b, p); }
  }

  /** A product with a nonzero factor is zero exactly if the other factor is. */
  lemma ZeroFactor(p: int, a: int, b: int)
    requires IsField(p) && !Cong(a, 0, p)
    ensures Cong(a * b, 0, p) <==> Cong(b, 0, p)
  {
    CongRefl(a, p);
    if Cong(b, 0, p) { CongMul(a, a, b, 0, p); }
    if Cong(a * b, 0, p) {
      assert a * b == b * a && 0 * a == 0;
      CancelFactor(p, b, 0, a);
    }
  }

  /** The chord sum of a point on the curve and one off it is on the curve exactly if its x is that of the first; */
  lemma BackOn(p: int, b: int, e: Point, d: Point, q: Point)
    requires IsField(p) && OnCurve(p, b, e) && !OnCurve(p, b, d) && !Cong(d.x - e.x, 0, p) && Chord(p, e, d, q)
    ensures OnCurve(p, b, q) <==> Cong(q.x, e.x, p)
  {
    ChordResidue(p, e, d, q);
    var re, rd, rq := Residue(e), Residue(d), Residue(q);
    Relative(p, b, re, rd);
    Relative(p, b, re, rq);
    Difference(p, q.x, e.x);
    ZeroFactor(p, d.x - e.x, rq - re);
    ZeroFactor(p, rd - re, q.x - e.x);
    assert (q.x - e.x) * (rd - re) == (rd - re) * (q.x - e.x);
    ZeroBoth(p, (d.x - e.x) * (rq - re), (q.x - e.x) * (rd - re));
  }

  lemma ZeroBoth(p: int, a: int, b: int)
    requires p > 0 && Cong(a, b, p)
    ensures Cong(a, 0, p) <==> Cong(b, 0, p)
  {
    CongSym(a, b, p);
    if Cong(a, 0, p) { CongTrans(b, a, 0, p); }
    if Cong(b, 0, p) { CongTrans(a, b, 0, p); }
  }

  lemma Relative(p: int, b: int, re: int, r: int)
    requires p > 0 && Cong(re, b, p)
    ensures Cong(r - re, 0, p) <==> Cong(r, b, p)
  {
    Difference(p, r, re);
    CongSym(re, b, p);
    if Cong(r, re, p) { CongTrans(r, re, b, p); }
    if Cong(r, b, p) { CongTrans(r, b, re, p); }
  }

  /** it is then the opposite of the first. */
  lemma TurnedRound(p: int, e: Point, d: Point, q: Point)
    requires p > 0 && Chord(p, e, d, q) && Cong(q.x, e.x, p)
    ensures Same(p, q, Point(e.x, -e.y))
  {
    var l: int :| Slope(p, l, e, d) && OnLine(p, l, e, d.x, q);
    CongRefl(e.x, p);
    CongSub(e.x, e.x, q.x, e.x, p);
    CongRefl(l, p);
    CongMul(l, l, e.x - q.x, 0, p);
    CongRefl(e.y, p);
    CongSub(l * (e.x - q.x), l * 0, e.y, e.y, p);
    CongTrans(q.y, l * (e.x - q.x) - e.y, -e.y, p);
  }

  lemma NegNames<T(!new)>(g: Ops<T>, xy: T -> Point, p: int, q: Point, e: Point, t: T)
    requires CurveGroup(g, xy, p) && Names(g, xy, p, e, t) && Same(p, q, Point(e.x, -e.y))
    ensures Names(g, xy, p, q, g.neg(t))
  {
    assert NegLaw(g, xy, p, t);
    CongTrans(q.x, e.x, xy(t).x, p);
    CongSym(xy(g.neg(t)).x, xy(t).x, p);
    CongTrans(q.x, xy(t).x, xy(g.neg(t)).x, p);
    CongRefl(0, p);
    CongSub(0, 0, e.y, xy(t).y, p);
    CongTrans(q.y, -e.y, -xy(t).y, p);
    CongSym(xy(g.neg(t)).y, -xy(t).y, p);
    CongTrans(q.y, -xy(t).y, xy(g.neg(t)).y, p);
    NegZero(g, t);
  }

  lemma NegZero<T(!new)>(g: Ops<T>, t: T)
    requires Abelian(g) && t != g.zero
    ensures g.neg(t) != g.zero
  {
    Unit(g, t);
  }

  // ----- one step -----

  /** A joint multiplication: the curve, the table, its points and the scalars. */
  datatype Job<!T> = Job(g: Ops<T>, xy: T -> Point, p: int, c: int, ps: seq<Point>, a: T, b: T, s: nat, t: nat)

  ghost predicate Fits<T(!new)>(j: Job<T>) {
    WholeCurve(j.g, j.xy, j.p, j.c) && Table(j.g, j.xy, j.p, j.ps, j.a, j.b) && (j.s > 0 || j.t > 0)
  }

  ghost function Top<T(!new)>(j: Job<T>): nat {
    Max(NumBits(j.s), NumBits(j.t))
  }

  /** What is computed and what is wanted once the bits down to i are done. */
  ghost function At<T(!new)>(j: Job<T>, i: nat): Value
    requires Fits(j)
  {
    JointValue(j.p, j.ps, j.s, j.t, i)
  }

  ghost function Due<T(!new)>(j: Job<T>, i: nat): T {
    Running(j.g, j.a, j.b, j.s, j.t, i)
  }

  ghost predicate Right<T(!new)>(j: Job<T>, i: nat)
    requires Fits(j)
  {
    Means(j.g, j.xy, j.p, At(j, i), Due(j, i))
  }

  predicate Shared<T>(j: Job<T>, i: nat) {
    Bit(j.s, i) && Bit(j.t, i)
  }

  ghost function Added<T(!new)>(j: Job<T>, i: nat): T {
    Pick(j.g, j.a, j.b, Bit(j.s, i), Bit(j.t, i))
  }

  ghost predicate Regular<T(!new)>(j: Job<T>, i: nat) {
    Generic(j.g, j.a, j.b, j.s, j.t, i)
  }

  /** v is a point off the curve. */
  ghost predicate Astray<T(!new)>(j: Job<T>, v: Value)
    requires j.p > 0
  {
    v.Pt? && !OnCurve(j.p, j.c, v.at)
  }

  /** A sum with the x of the entry that was added to a point off the curve. */
  ghost predicate Reflects(p: int, e: Point, d: Value)
    requires IsField(p)
  {
    d.Pt? && var q := Plus(p, e, d.at); q.Pt? && Cong(q.at.x, e.x, p)
  }

  /** Bit i brings a stray point back to the curve as the opposite of the entry added, and that is the point wanted. */
  ghost predicate Turns<T(!new)>(j: Job<T>, i: nat)
    requires Fits(j)
  {
    && Bit(j.s, i) != Bit(j.t, i) && Astray(j, At(j, i + 1)) && Due(j, i + 1) == j.g.neg(Added(j, i))
    && Reflects(j.p, Entry(j.ps, Bit(j.s, i), Bit(j.t, i)), TwiceOf(j.p, At(j, i + 1)))
  }

  lemma NextAt<T(!new)>(j: Job<T>, i: nat)
    requires Fits(j) && i + 1 < Top(j)
    ensures At(j, i) == StepValue(j.p, j.ps, At(j, i + 1), Bit(j.s, i), Bit(j.t, i))
  {
  }

  lemma NextDue<T(!new)>(j: Job<T>, i: nat)
    requires Fits(j)
    ensures var r := Due(j, i + 1); Due(j, i) == j.g.add(j.g.add(r, r), Added(j, i))
  {
    var r := Due(j, i + 1);
    JointStep(j.g, j.a, j.b, j.s, j.t, i, r, j.g.add(j.g.add(r, r), Added(j, i)));
  }

  /** Different points stay different. */
  lemma Injective<T(!new)>(g: Ops<T>, w: T, r: T, u: T)
    requires Abelian(g) && NoHalf(g, Sub(g, w, r)) && g.add(g.add(w, w), u) == g.add(g.add(r, r), u)
    ensures w == r
  {
    AddSub(g, g.add(w, w), u);
    AddSub(g, g.add(r, r), u);
    var d := Sub(g, w, r);
    AddSub(g, w, r);
    Exchange(g, d, r, d, r);
    AddSub(g, g.add(d, d), g.add(r, r));
    Unit(g, g.add(r, r));
    NegUnique(g, g.add(r, r), g.add(r, r));
    NegUnique(g, w, r);
  }

  /** From a point of the curve, a bit of one scalar or none leads to the right point only from the right one. */
  lemma StepOn<T(!new)>(j: Job<T>, i: nat)
    requires Fits(j) && i + 1 < Top(j) && !Shared(j, i) && At(j, i + 1).Pt? && OnCurve(j.p, j.c, At(j, i + 1).at)
    ensures Right(j, i) <==> Right(j, i + 1) && Regular(j, i)
  {
    var v, r, u := At(j, i + 1), Due(j, i + 1), Added(j, i);
    assert HasPoint(j.g, j.xy, j.p, j.c, v.at);
    var w: T :| Names(j.g, j.xy, j.p, v.at, w);
    NextAt(j, i);
    NextDue(j, i);
    StepFrom(j.g, j.xy, j.p, j.ps, j.a, j.b, Bit(j.s, i), Bit(j.t, i), w, v);
    if Right(j, i + 1) { OneName(j.g, j.xy, j.p, j.c, v.at, w, r); }
    if Right(j, i) {
      OneName(j.g, j.xy, j.p, j.c, At(j, i).at, j.g.add(j.g.add(w, w), u), Due(j, i));
      assert NoHalf(j.g, Sub(j.g, w, r));
      Injective(j.g, w, r, u);
    }
  }

  /** Doubling leads no stray point back. */
  lemma TwiceAstray<T(!new)>(j: Job<T>, v: Value)
    requires Fits(j) && Astray(j, v)
    ensures TwiceOf(j.p, v).Pt? ==> Astray(j, TwiceOf(j.p, v))
  {
    var d := TwiceOf(j.p, v);
    if d.Pt? {
      TangentResidue(j.p, v.at, d.at);
      SameResidue(j.p, j.c, Residue(d.at), Residue(v.at));
    }
  }

  lemma SameResidue(p: int, c: int, r: int, s: int)
    requires p > 0 && Cong(r, s, p)
    ensures Cong(r, c, p) <==> Cong(s, c, p)
  {
    CongSym(r, s, p);
    if Cong(r, c, p) { CongTrans(s, r, c, p); }
    if Cong(s, c, p) { CongTrans(r, s, c, p); }
  }

  lemma NotRight<T(!new)>(j: Job<T>, i: nat)
    requires Fits(j) && (At(j, i).Void? || Astray(j, At(j, i)))
    ensures !Right(j, i)
  {
    if Right(j, i) { ElementOn(j.g, j.xy, j.p, j.c, At(j, i).at, Due(j, i)); }
  }

  lemma EntryNames<T(!new)>(j: Job<T>, i: nat)
    requires Fits(j) && Bit(j.s, i) != Bit(j.t, i)
    ensures Names(j.g, j.xy, j.p, Entry(j.ps, Bit(j.s, i), Bit(j.t, i)), Added(j, i))
  {
    EntrySame(j.g, j.xy, j.p, j.ps, j.a, j.b, Bit(j.s, i), Bit(j.t, i));
  }

  /** The sum of an entry and a stray point is a point of the curve only as the opposite of the entry. */
  lemma AddedAstray<T(!new)>(j: Job<T>, e: Point, u: T, d: Value, r: T)
    requires Fits(j) && Names(j.g, j.xy, j.p, e, u) && Astray(j, d)
    ensures Means(j.g, j.xy, j.p, Plus(j.p, e, d.at), r) <==> Reflects(j.p, e, d) && r == j.g.neg(u)
  {
    var q := Plus(j.p, e, d.at);
    if q.Pt? {
      ElementOn(j.g, j.xy, j.p, j.c, e, u);
      BackOn(j.p, j.c, e, d.at, q.at);
      if Means(j.g, j.xy, j.p, q, r) { ElementOn(j.g, j.xy, j.p, j.c, q.at, r); }
      if Reflects(j.p, e, d) {
        TurnedRound(j.p, e, d.at, q.at);
        NegNames(j.g, j.xy, j.p, q.at, e, u);
        if Means(j.g, j.xy, j.p, q, r) { OneName(j.g, j.xy, j.p, j.c, q.at, r, j.g.neg(u)); }
      }
    }
  }

  /** 2 r + u is -u exactly if r is. */
  lemma WantedIsOpposite<T(!new)>(g: Ops<T>, r: T, u: T)
    requires Abelian(g) && NoHalf(g, g.add(r, u))
    ensures g.add(g.add(r, r), u) == g.neg(u) <==> r == g.neg(u)
  {
    NegUnique(g, g.add(g.add(r, r), u), u);
    NegUnique(g, r, u);
    Assoc(g, g.add(r, r), u, u);
    Exchange(g, r, r, u, u);
    Unit(g, g.zero);
  }

  lemma StepAstray<T(!new)>(j: Job<T>, i: nat)
    requires Fits(j) && i + 1 < Top(j) && !Shared(j, i) && Astray(j, At(j, i + 1))
    ensures Right(j, i) <==> Turns(j, i)
  {
    var v, r, u := At(j, i + 1), Due(j, i + 1), Added(j, i);
    var d := TwiceOf(j.p, v);
    NextAt(j, i);
    NextDue(j, i);
    TwiceAstray(j, v);
    assert NoHalf(j.g, j.g.add(r, u));
    WantedIsOpposite(j.g, r, u);
    if d.Pt? && Bit(j.s, i) != Bit(j.t, i) {
      EntryNames(j, i);
      AddedAstray(j, Entry(j.ps, Bit(j.s, i), Bit(j.t, i)), u, d, Due(j, i));
    } else {
      NotRight(j, i);
    }
  }

  /** A bit of one scalar or none: right comes from right by a regular step, or from a stray point that turns. */
  lemma UnsharedStep<T(!new)>(j: Job<T>, i: nat)
    requires Fits(j) && i + 1 < Top(j) && !Shared(j, i)
    ensures Right(j, i) <==> (Right(j, i + 1) && Regular(j, i)) || Turns(j, i)
  {
    var v := At(j, i + 1);
    if v.Void? {
      NextAt(j, i);
    } else if OnCurve(j.p, j.c, v.at) {
      StepOn(j, i);
    } else {
      StepAstray(j, i);
      NotRight(j, i + 1);
    }
  }

  // ----- a bit of both scalars -----

  /** y^2 = 2 x^3 with x other than zero: the chord from (0, 0) ends opposite the point. */
  ghost predicate Cuspidal(p: int, d: Point)
    requires p > 0
  {
    !Cong(d.x, 0, p) && Cong(d.y * d.y, 2 * (d.x * (d.x * d.x)), p)
  }

  lemma CuspidalSlope(p: int, l: int, d: Point, x: int)
    requires IsField(p) && !Cong(d.x, 0, p) && Cong(l * d.x, d.y, p) && Cong(x, l * l - d.x, p)
    ensures Cuspidal(p, d) <==> Cong(x, d.x, p)
  {
    var k, n := l * l, d.x * d.x;
    CongMul(l * d.x, d.y, l * d.x, d.y, p);
    assert (l * d.x) * (l * d.x) == k * n && 2 * (d.x * (d.x * d.x)) == (2 * d.x) * n;
    ZeroFactor(p, d.x, d.x);
    SameResidue(p, (2 * d.x) * n, k * n, d.y * d.y);
    CancelIff(p, k, 2 * d.x, n);
    SameResidue(p, d.x, x, k - d.x);
    HalfIff(p, k, d.x);
  }

  lemma CancelIff(p: int, a: int, b: int, n: int)
    requires IsField(p) && !Cong(n, 0, p)
    ensures Cong(a * n, b * n, p) <==> Cong(a, b, p)
  {
    if Cong(a * n, b * n, p) { CancelFactor(p, a, b, n); }
    if Cong(a, b, p) { CongTimes(a, b, n, p); }
  }

  lemma HalfIff(p: int, k: int, x: int)
    requires p > 0
    ensures Cong(k - x, x, p) <==> Cong(k, 2 * x, p)
  {
    CongRefl(x, p);
    if Cong(k - x, x, p) { CongAdd(k - x, x, x, x, p); }
    if Cong(k, 2 * x, p) { CongSub(k, 2 * x, x, x, p); }
  }

  lemma SpokeLine(p: int, l: int, o: Point, d: Point, q: Point)
    requires p > 0 && Cong(o.x, 0, p) && Cong(o.y, 0, p) && Slope(p, l, o, d) && OnLine(p, l, o, d.x, q)
    ensures Cong(l * d.x, d.y, p) && Cong(q.x, l * l - d.x, p)
  {
    CongRefl(l, p);
    CongRefl(d.x, p);
    CongRefl(d.y, p);
    CongRefl(l * l, p);
    CongSub(d.x, d.x, o.x, 0, p);
    CongMul(l, l, d.x - o.x, d.x, p);
    CongSub(d.y, d.y, o.y, 0, p);
    CongSym(l * (d.x - o.x), l * d.x, p);
    CongTrans(l * d.x, l * (d.x - o.x), d.y - o.y, p);
    CongTrans(l * d.x, d.y - o.y, d.y, p);
    CongSub(l * l, l * l, o.x, 0, p);
    CongSub(l * l - o.x, l * l, d.x, d.x, p);
    CongTrans(q.x, l * l - o.x - d.x, l * l - d.x, p);
  }

  lemma CuspidalChord(p: int, o: Point, d: Point, q: Point)
    requires IsField(p) && Cong(o.x, 0, p) && Cong(o.y, 0, p) && !Cong(d.x, 0, p) && Chord(p, o, d, q)
    ensures Cuspidal(p, d) <==> Cong(q.x, d.x, p)
  {
    var l: int :| Slope(p, l, o, d) && OnLine(p, l, o, d.x, q);
    SpokeLine(p, l, o, d, q);
    CuspidalSlope(p, l, d, q.x);
  }

  /** The chord sum of a point off the curve and one on it is on the curve exactly if it is the opposite of the
      second. */
  lemma BackOnSecond(p: int, c: int, o: Point, d: Point, q: Point)
    requires IsField(p) && !OnCurve(p, c, o) && OnCurve(p, c, d) && !Cong(d.x - o.x, 0, p) && Chord(p, o, d, q)
    ensures OnCurve(p, c, q) <==> Cong(q.x, d.x, p)
    ensures Cong(q.x, d.x, p) ==> Same(p, q, Point(d.x, -d.y))
  {
    ChordSwap(p, o, d, q);
    Difference(p, d.x, o.x);
    Difference(p, o.x, d.x);
    if Cong(o.x, d.x, p) { CongSym(o.x, d.x, p); }
    BackOn(p, c, d, o, q);
    if Cong(q.x, d.x, p) { TurnedRound(p, d, o, q); }
  }

  /** o is (0, 0). */
  ghost predicate IsOrigin(p: int, o: Point)
    requires p > 0
  {
    Cong(o.x, 0, p) && Cong(o.y, 0, p)
  }

  /** Adding (0, 0) to d happens to give r: d is on the curve, y^2 = 2 x^3 and r is its opposite, or d is a stray point
      and comes back at r. */
  ghost predicate Lands<T(!new)>(j: Job<T>, d: Value, r: T)
    requires Fits(j)
  {
    d.Pt? && if OnCurve(j.p, j.c, d.at) then
      Cuspidal(j.p, d.at) && Names(j.g, j.xy, j.p, Point(d.at.x, -d.at.y), r)
    else
      var q := Plus(j.p, j.ps[2], d.at); q.Pt? && Names(j.g, j.xy, j.p, q.at, r)
  }

  lemma NamesSame<T(!new)>(g: Ops<T>, xy: T -> Point, p: int, q: Point, q': Point, t: T)
    requires p > 0 && Same(p, q, q')
    ensures Names(g, xy, p, q, t) <==> Names(g, xy, p, q', t)
  {
    SameBack(p, q, q');
    if Names(g, xy, p, q, t) { SameTrans(p, q', q, xy(t)); }
    if Names(g, xy, p, q', t) { SameTrans(p, q, q', xy(t)); }
  }

  lemma AddedOrigin<T(!new)>(j: Job<T>, d: Value, r: T)
    requires Fits(j) && IsOrigin(j.p, j.ps[2]) && d.Pt?
    ensures Means(j.g, j.xy, j.p, Plus(j.p, j.ps[2], d.at), r) <==> Lands(j, d, r)
  {
    var o := j.ps[2];
    var q := Plus(j.p, o, d.at);
    CongRefl(d.at.x, j.p);
    CongSub(d.at.x, d.at.x, o.x, 0, j.p);
    ZeroBoth(j.p, d.at.x - o.x, d.at.x);
    if q.Pt? && OnCurve(j.p, j.c, d.at) {
      OriginOff(j.p, j.c, o);
      BackOnSecond(j.p, j.c, o, d.at, q.at);
      CuspidalChord(j.p, o, d.at, q.at);
      if Means(j.g, j.xy, j.p, q, r) { ElementOn(j.g, j.xy, j.p, j.c, q.at, r); }
      if Cuspidal(j.p, d.at) { NamesSame(j.g, j.xy, j.p, q.at, Point(d.at.x, -d.at.y), r); }
    }
  }

  /** v is (0, 0). */
  ghost predicate Vanished(p: int, v: Value)
    requires p > 0
  {
    v.Pt? && IsOrigin(p, v.at)
  }

  /** A bit of both scalars, with no sum in the table: right only if the point happens to land there. */
  lemma SharedStep<T(!new)>(j: Job<T>, i: nat)
    requires Fits(j) && i + 1 < Top(j) && Shared(j, i) && IsOrigin(j.p, j.ps[2])
    ensures Right(j, i) <==> Lands(j, TwiceOf(j.p, At(j, i + 1)), Due(j, i))
  {
    var d := TwiceOf(j.p, At(j, i + 1));
    NextAt(j, i);
    if d.Pt? { AddedOrigin(j, d, Due(j, i)); }
  }

  /** If the top bits are both set, nothing but (0, 0) comes out. */
  lemma {:induction false} TopShared<T(!new)>(j: Job<T>, i: nat)
    requires Fits(j) && i < Top(j) && Shared(j, Top(j) - 1) && IsOrigin(j.p, j.ps[2])
    ensures At(j, i).Void? || Vanished(j.p, At(j, i))
    decreases Top(j) - i
  {
    if i + 1 < Top(j) {
      TopShared(j, i + 1);
      NextAt(j, i);
    }
  }

  // ----- the whole loop -----

  ghost predicate RegularOn<T(!new)>(j: Job<T>, i: nat, k: nat) {
    forall m: nat :: i <= m < k ==> Regular(j, m)
  }

  ghost predicate Unshared<T(!new)>(j: Job<T>, i: nat, k: nat) {
    forall m: nat :: i <= m < k ==> !Shared(j, m)
  }

  /** Bit m turns, and the bits from there to i are regular. */
  ghost predicate TurnsAt<T(!new)>(j: Job<T>, i: nat, m: nat)
    requires Fits(j)
  {
    Turns(j, m) && RegularOn(j, i, m)
  }

  /** A bit from i to k turns. */
  ghost predicate SomeTurn<T(!new)>(j: Job<T>, i: nat, k: nat)
    requires Fits(j)
  {
    exists m: nat :: i <= m < k && TurnsAt(j, i, m)
  }

  lemma RegularMore<T(!new)>(j: Job<T>, i: nat, k: nat)
    requires i < k
    ensures RegularOn(j, i, k) <==> Regular(j, i) && RegularOn(j, i + 1, k)
  {
  }

  lemma TurnLess<T(!new)>(j: Job<T>, i: nat, k: nat)
    requires Fits(j) && SomeTurn(j, i, k)
    ensures Turns(j, i) || (Regular(j, i) && SomeTurn(j, i + 1, k))
  {
    var m: nat :| i <= m < k && TurnsAt(j, i, m);
    if m > i {
      RegularMore(j, i, m);
      assert TurnsAt(j, i + 1, m);
    }
  }

  lemma TurnMore<T(!new)>(j: Job<T>, i: nat, k: nat)
    requires Fits(j) && Regular(j, i) && SomeTurn(j, i + 1, k)
    ensures SomeTurn(j, i, k)
  {
    var m: nat :| i + 1 <= m < k && TurnsAt(j, i + 1, m);
    RegularMore(j, i, m);
    assert TurnsAt(j, i, m);
  }

  lemma TurnSplit<T(!new)>(j: Job<T>, i: nat, k: nat)
    requires Fits(j) && i < k
    ensures SomeTurn(j, i, k) <==> Turns(j, i) || (Regular(j, i) && SomeTurn(j, i + 1, k))
  {
    if SomeTurn(j, i, k) { TurnLess(j, i, k); }
    if Regular(j, i) && SomeTurn(j, i + 1, k) { TurnMore(j, i, k); }
    if Turns(j, i) { assert TurnsAt(j, i, i); }
  }

  lemma {:induction false} RightFrom<T(!new)>(j: Job<T>, i: nat, k: nat)
    requires Fits(j) && i <= k < Top(j) && Unshared(j, i, k)
    ensures Right(j, i) <==> (Right(j, k) && RegularOn(j, i, k)) || SomeTurn(j, i, k)
    decreases k - i
  {
    if i < k {
      RightFrom(j, i + 1, k);
      UnsharedStep(j, i);
      RegularMore(j, i, k);
      TurnSplit(j, i, k);
    }
  }

  /** The sum at the lowest shared bit k landed on the right point, or a stray point turned to the right one below, and
      all is regular from there. */
  ghost predicate Recovers<T(!new)>(j: Job<T>, k: nat)
    requires Fits(j)
  {
    || (k + 1 < Top(j) && Lands(j, TwiceOf(j.p, At(j, k + 1)), Due(j, k)) && RegularOn(j, 0, k))
    || SomeTurn(j, 0, k)
  }

  lemma SharedBelowTop(k: nat, n: nat, i: nat)
    requires NumBits(k) <= n && Bit(k, i)
    ensures i < n
  {
    if i >= n { PrefixZero(k, i); }
  }

  lemma RightIff<T(!new)>(j: Job<T>, k: nat)
    requires Fits(j) && Shared(j, k) && Unshared(j, 0, k) && IsOrigin(j.p, j.ps[2])
    ensures Right(j, 0) <==> Recovers(j, k)
  {
    SharedBelowTop(j.s, Top(j), k);
    RightFrom(j, 0, k);
    if k + 1 < Top(j) {
      SharedStep(j, k);
    } else {
      TopShared(j, k);
      VanishedWrong(j, k);
    }
  }

  lemma VanishedWrong<T(!new)>(j: Job<T>, i: nat)
    requires Fits(j) && (At(j, i).Void? || Vanished(j.p, At(j, i)))
    ensures !Right(j, i)
  {
    if At(j, i).Pt? { OriginOff(j.p, j.c, At(j, i).at); }
    NotRight(j, i);
  }

  lemma TopOutput<T(!new)>(j: Job<T>, x: int, y: int)
    requires Fits(j) && Shared(j, Top(j) - 1) && IsOrigin(j.p, j.ps[2]) && Shown(j.p, x, y, At(j, 0))
    ensures Origin(x, y)
  {
    TopPick(j.s, j.t);
    TopShared(j, 0);
    if At(j, 0).Pt? {
      CongTrans(x, At(j, 0).at.x, 0, j.p);
      CongTrans(y, At(j, 0).at.y, 0, j.p);
      CongSmall(x, 0, j.p);
      CongSmall(y, 0, j.p);
    }
  }

  lemma ZeroUnnamed<T(!new)>(j: Job<T>, q: Point, r: T)
    requires Fits(j) && Cong(q.x, 0, j.p) && Cong(q.y, 0, j.p)
    ensures !Names(j.g, j.xy, j.p, q, r)
  {
    OriginOff(j.p, j.c, q);
    if Names(j.g, j.xy, j.p, q, r) { ElementOn(j.g, j.xy, j.p, j.c, q, r); }
  }

  lemma OutputRight<T(!new)>(j: Job<T>, x: int, y: int, q: Point)
    requires Fits(j) && Due(j, 0) != j.g.zero && Shown(j.p, x, y, At(j, 0)) && q == Point(x, y)
    ensures Encodes(j.g, j.xy, j.p, x, y, Due(j, 0)) <==> Right(j, 0)
  {
    if At(j, 0).Pt? {
      NamesSame(j.g, j.xy, j.p, q, At(j, 0).at, Due(j, 0));
    } else {
      CongRefl(0, j.p);
      ZeroUnnamed(j, q, Due(j, 0));
    }
  }

  /** Main result: where P is G or -G and k is the lowest bit set in both scalars, ecc_point_mult2 gives s G + t P, if
      that is not zero, exactly if the computation recovers; with both top bits set (0, 0) comes out. */
  lemma StrayExact<T(!new)>(g: Ops<T>, xy: T -> Point, p: int, c: int, a: T, b: T, u: Point, v: Point, s: nat, t: nat,
                            k: nat, x: int, y: int)
    requires WholeCurve(g, xy, p, c) && a != g.zero && b != g.zero && Same(p, u, xy(a)) && Same(p, v, xy(b))
    requires !Apart(g, a, b) && (s > 0 || t > 0) && Shown(p, x, y, JointValue(p, TableOf(p, u, v), s, t, 0))
    ensures Fits(Job(g, xy, p, c, TableOf(p, u, v), a, b, s, t))
    ensures var j, r := Job(g, xy, p, c, TableOf(p, u, v), a, b, s, t), Joint(g, a, b, s, t);
      && (Top(j) > 0 && Shared(j, Top(j) - 1) ==> Origin(x, y))
      && (r != g.zero && Shared(j, k) && Unshared(j, 0, k) ==> (Encodes(g, xy, p, x, y, r) <==> Recovers(j, k)))
  {
    TableGroup(g, xy, p, a, b, u, v);
    var j := Job(g, xy, p, c, TableOf(p, u, v), a, b, s, t);
    CongRefl(0, p);
    if Top(j) > 0 && Shared(j, Top(j) - 1) { TopOutput(j, x, y); }
    if Joint(g, a, b, s, t) != g.zero { OutputRight(j, x, y, Point(x, y)); }
    if Shared(j, k) && Unshared(j, 0, k) { RightIff(j, k); }
  }

  // ----- all points and scalars -----

  lemma {:induction false} LowestShared<T(!new)>(j: Job<T>, n: nat) returns (k: nat)
    requires Shared(j, n)
    ensures k <= n && Shared(j, k) && Unshared(j, 0, k)
  {
    k := n;
    if !Unshared(j, 0, n) {
      var m: nat :| m < n && Shared(j, m);
      k := LowestShared(j, m);
    }
  }

  /** The computation recovers after the lowest bit set in both scalars. */
  ghost predicate RecoversBelow<T(!new)>(j: Job<T>)
    requires Fits(j)
  {
    exists k: nat :: Shared(j, k) && Unshared(j, 0, k) && Recovers(j, k)
  }

  lemma OneLowest<T(!new)>(j: Job<T>, k: nat, m: nat)
    requires Shared(j, k) && Unshared(j, 0, k) && Shared(j, m) && Unshared(j, 0, m)
    ensures k == m
  {
  }

  /** Bit m meets a doubling of a point with y = 0 or an addition of points with the same x. */
  ghost predicate Blocks<T(!new)>(j: Job<T>, m: nat)
    requires Fits(j)
  {
    var v, sb, tb := At(j, m + 1), Bit(j.s, m), Bit(j.t, m);
    v.Pt? && (Cong(v.at.y, 0, j.p) || ((sb || tb) && Cong(Twice(j.p, v.at).at.x - Entry(j.ps, sb, tb).x, 0, j.p)))
  }

  ghost predicate SomeBlock<T(!new)>(j: Job<T>, i: nat)
    requires Fits(j)
  {
    exists m: nat :: i <= m && m + 1 < Top(j) && Blocks(j, m)
  }

  lemma BlockSplit<T(!new)>(j: Job<T>, i: nat)
    requires Fits(j) && i + 1 < Top(j)
    ensures SomeBlock(j, i) <==> Blocks(j, i) || SomeBlock(j, i + 1)
  {
    if SomeBlock(j, i + 1) {
      var m: nat :| i + 1 <= m && m + 1 < Top(j) && Blocks(j, m);
      assert i <= m;
    }
  }

  /** Nothing is left exactly if a step was blocked. */
  lemma {:induction false} VoidExact<T(!new)>(j: Job<T>, i: nat)
    requires Fits(j) && i < Top(j)
    ensures At(j, i).Void? <==> SomeBlock(j, i)
    decreases Top(j) - i
  {
    if i + 1 < Top(j) {
      VoidExact(j, i + 1);
      NextAt(j, i);
      BlockSplit(j, i);
    }
  }

  lemma OutputZero<T(!new)>(j: Job<T>, x: int, y: int)
    requires Fits(j) && Shown(j.p, x, y, At(j, 0))
    ensures Origin(x, y) <==> SomeBlock(j, 0) || Vanished(j.p, At(j, 0))
  {
    TopPick(j.s, j.t);
    VoidExact(j, 0);
    if At(j, 0).Pt? {
      var q := At(j, 0).at;
      SameResidue(j.p, 0, x, q.x);
      SameResidue(j.p, 0, y, q.y);
      ZeroReduced(j.p, x);
      ZeroReduced(j.p, y);
    }
  }

  lemma ZeroReduced(p: int, x: int)
    requires p > 0 && Reduced(p, x)
    ensures Cong(x, 0, p) <==> x == 0
  {
    CongRefl(x, p);
    if Cong(x, 0, p) { CongSmall(x, 0, p); }
  }

  /** Main result, for all points of the curve but zero and all scalars not both zero. A nonzero s G + t P comes out
      exactly if every step is regular, or, where P is G or -G and a bit is set in both scalars, if the computation
      recovers; a zero one exactly if a step is blocked or the last sum is (0, 0). */
  lemma Mult2Exact<T(!new)>(g: Ops<T>, xy: T -> Point, p: int, c: int, a: T, b: T, u: Point, v: Point, s: nat, t: nat,
                            x: int, y: int)
    requires WholeCurve(g, xy, p, c) && a != g.zero && b != g.zero && Same(p, u, xy(a)) && Same(p, v, xy(b))
    requires (s > 0 || t > 0) && Shown(p, x, y, JointValue(p, TableOf(p, u, v), s, t, 0))
    ensures Fits(Job(g, xy, p, c, TableOf(p, u, v), a, b, s, t))
    ensures var j, r := Job(g, xy, p, c, TableOf(p, u, v), a, b, s, t), Joint(g, a, b, s, t);
      Encodes(g, xy, p, x, y, r) <==>
        if r == g.zero then SomeBlock(j, 0) || Vanished(p, At(j, 0))
        else if TableServes(g, a, b, s, t) then AllGeneric(g, a, b, s, t)
        else RecoversBelow(j)
  {
    TableGroup(g, xy, p, a, b, u, v);
    var j, r := Job(g, xy, p, c, TableOf(p, u, v), a, b, s, t), Joint(g, a, b, s, t);
    if r == g.zero {
      OutputZero(j, x, y);
    } else if TableServes(g, a, b, s, t) {
      assert LiesOn(g, xy, p, c, r);
      ElementOff(g, xy, p, c, r);
      JointExact(g, xy, p, a, b, u, v, s, t, x, y);
    } else {
      var n: nat :| Bit(s, n) && Bit(t, n);
      var k := LowestShared(j, n);
      StrayExact(g, xy, p, c, a, b, u, v, s, t, k, x, y);
      if RecoversBelow(j) {
        var m: nat :| Shared(j, m) && Unshared(j, 0, m) && Recovers(j, m);
        OneLowest(j, k, m);
      }
    }
  }

  lemma ElementOff<T(!new)>(g: Ops<T>, xy: T -> Point, p: int, c: int, r: T)
    requires WholeCurve(g, xy, p, c) && r != g.zero && LiesOn(g, xy, p, c, r)
    ensures OffOrigin(xy, p, r)
  {
    if !OffOrigin(xy, p, r) { OriginOff(p, c, xy(r)); assert false; }
  }
}
