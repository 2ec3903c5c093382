/** Affine point addition and doubling modulo p, the simple form that the projective programs refine. Nothing here asks
    the points to lie on a curve. */
module AffinePoints {
  import opened Arith
  import opened Field
  import opened CoZ
  import opened CurveRep

  lemma OverExists(p: int, n: int, d: int)
    requires IsField(p) && !Cong(d, 0, p)
    ensures exists q: int :: 0 <= q < p && Cong(q * d, n, p)
  {
    var i := Invert(p, d);
    var q := (n * i) % p;
    CongMod(n * i, p);
    CongTimes(q, n * i, d, p);
    CongTimes(d * i, 1, n, p);
    assert n * i * d == d * i * n && 1 * n == n;
    CongTrans(q * d, n * i * d, n, p);
    assert 0 <= q < p && Cong(q * d, n, p);
  }

  /** n / d modulo p. */
  ghost function Over(p: int, n: int, d: int): (q: int)
    requires IsField(p) && !Cong(d, 0, p)
    ensures 0 <= q < p && Cong(q * d, n, p)
  {
    OverExists(p, n, d);
    var q: int :| 0 <= q < p && Cong(q * d, n, p);
    q
  }

  /** The reflected third point of the line of slope l through a that also meets x-coordinate bx. */
  ghost function Third(p: int, l: int, a: Point, bx: int): (c: Point)
    requires p > 0
    ensures Reduced(p, c.x) && Reduced(p, c.y) && OnLine(p, l, a, bx, c)
  {
    var x := (l * l - a.x - bx) % p;
    CongMod(l * l - a.x - bx, p);
    CongMod(l * (a.x - x) - a.y, p);
    Point(x, (l * (a.x - x) - a.y) % p)
  }

  /** A point, or nothing once a division by zero was met. */
  datatype Value = Void | Pt(at: Point)

  /** The chord sum of points with different x. */
  ghost function Plus(p: int, a: Point, b: Point): (v: Value)
    requires IsField(p)
    ensures v.Void? <==> Cong(b.x - a.x, 0, p)
    ensures v.Pt? ==> Reduced(p, v.at.x) && Reduced(p, v.at.y) && Chord(p, a, b, v.at)
  {
    if Cong(b.x - a.x, 0, p) then Void
    else
      var l := Over(p, b.y - a.y, b.x - a.x);
      assert Slope(p, l, a, b);
      Pt(Third(p, l, a, b.x))
  }

  lemma TwiceNonZero(p: int, y: int)
    requires IsField(p) && p % 2 == 1 && !Cong(y, 0, p)
    ensures !Cong(2 * y, 0, p)
  {
    if Cong(2 * y, 2 * 0, p) { CancelTwo(y, 0, p); }
  }

  /** The tangent double of a point with y other than zero, on a curve with a = -3. */
  ghost function Twice(p: int, a: Point): (v: Value)
    requires IsField(p) && p % 2 == 1
    ensures v.Void? <==> Cong(a.y, 0, p)
    ensures v.Pt? ==> Reduced(p, v.at.x) && Reduced(p, v.at.y) && Tangent(p, a, v.at)
  {
    if Cong(a.y, 0, p) then Void
    else
      TwiceNonZero(p, a.y);
      var l := Over(p, 3 * (a.x * a.x) - 3, 2 * a.y);
      assert TangentSlope(p, l, a);
      Pt(Third(p, l, a, a.x))
  }

  ghost predicate Same(p: int, a: Point, b: Point)
    requires p > 0
  {
    Cong(a.x, b.x, p) && Cong(a.y, b.y, p)
  }

  /** Lines of congruent slopes through congruent points. */
  lemma SameThird(p: int, l: int, m: int, a: Point, bx: int, c: Point, d: Point)
    requires p > 0 && Cong(l, m, p) && OnLine(p, l, a, bx, c) && OnLine(p, m, a, bx, d)
    ensures Same(p, c, d)
  {
    CongMul(l, m, l, m, p);
    CongRefl(a.x, p);
    CongRefl(bx, p);
    CongSub(l * l, m * m, a.x, a.x, p);
    CongSub(l * l - a.x, m * m - a.x, bx, bx, p);
    CongTrans(c.x, l * l - a.x - bx, m * m - a.x - bx, p);
    CongSym(d.x, m * m - a.x - bx, p);
    CongTrans(c.x, m * m - a.x - bx, d.x, p);
    CongSub(a.x, a.x, c.x, d.x, p);
    CongMul(l, m, a.x - c.x, a.x - d.x, p);
    CongRefl(a.y, p);
    CongSub(l * (a.x - c.x), m * (a.x - d.x), a.y, a.y, p);
    CongTrans(c.y, l * (a.x - c.x) - a.y, m * (a.x - d.x) - a.y, p);
    CongSym(d.y, m * (a.x - d.x) - a.y, p);
    CongTrans(c.y, m * (a.x - d.x) - a.y, d.y, p);
  }

  /** Points with different x have one chord sum, */
  lemma OneChord(p: int, a: Point, b: Point, c: Point, d: Point)
    requires IsField(p) && !Cong(b.x - a.x, 0, p) && Chord(p, a, b, c) && Chord(p, a, b, d)
    ensures Same(p, c, d)
  {
    var l: int :| Slope(p, l, a, b) && OnLine(p, l, a, b.x, c);
    var m: int :| Slope(p, m, a, b) && OnLine(p, m, a, b.x, d);
    CongSym(m * (b.x - a.x), b.y - a.y, p);
    CongTrans(l * (b.x - a.x), b.y - a.y, m * (b.x - a.x), p);
    CancelFactor(p, l, m, b.x - a.x);
    SameThird(p, l, m, a, b.x, c, d);
  }

  /** and points with y other than zero one tangent double. */
  lemma OneTangent(p: int, a: Point, c: Point, d: Point)
    requires IsField(p) && p % 2 == 1 && !Cong(a.y, 0, p) && Tangent(p, a, c) && Tangent(p, a, d)
    ensures Same(p, c, d)
  {
    var l: int :| TangentSlope(p, l, a) && OnLine(p, l, a, a.x, c);
    var m: int :| TangentSlope(p, m, a) && OnLine(p, m, a, a.x, d);
    var n := 3 * (a.x * a.x) - 3;
    CongSym(m * (2 * a.y), n, p);
    CongTrans(l * (2 * a.y), n, m * (2 * a.y), p);
    TwiceNonZero(p, a.y);
    CancelFactor(p, l, m, 2 * a.y);
    SameThird(p, l, m, a, a.x, c, d);
  }

  /** The same line through congruent points. */
  lemma LineCong(p: int, l: int, a: Point, bx: int, a': Point, bx': int, s: Point)
    requires p > 0 && OnLine(p, l, a, bx, s) && Same(p, a, a') && Cong(bx, bx', p)
    ensures OnLine(p, l, a', bx', s)
  {
    CongRefl(l * l, p);
    CongSub(l * l, l * l, a.x, a'.x, p);
    CongSub(l * l - a.x, l * l - a'.x, bx, bx', p);
    CongTrans(s.x, l * l - a.x - bx, l * l - a'.x - bx', p);
    CongRefl(s.x, p);
    CongRefl(l, p);
    CongSub(a.x, a'.x, s.x, s.x, p);
    CongMul(l, l, a.x - s.x, a'.x - s.x, p);
    CongSub(l * (a.x - s.x), l * (a'.x - s.x), a.y, a'.y, p);
    CongTrans(s.y, l * (a.x - s.x) - a.y, l * (a'.x - s.x) - a'.y, p);
  }

  lemma ChordSame(p: int, a: Point, b: Point, a': Point, b': Point, s: Point)
    requires p > 0 && Chord(p, a, b, s) && Same(p, a, a') && Same(p, b, b')
    ensures Chord(p, a', b', s)
  {
    var l: int :| Slope(p, l, a, b) && OnLine(p, l, a, b.x, s);
    CongSub(b.x, b'.x, a.x, a'.x, p);
    CongSub(b.y, b'.y, a.y, a'.y, p);
    CongRefl(l, p);
    CongMul(l, l, b.x - a.x, b'.x - a'.x, p);
    CongSym(l * (b.x - a.x), l * (b'.x - a'.x), p);
    CongTrans(l * (b'.x - a'.x), l * (b.x - a.x), b.y - a.y, p);
    CongTrans(l * (b'.x - a'.x), b.y - a.y, b'.y - a'.y, p);
    LineCong(p, l, a, b.x, a', b'.x, s);
    assert Slope(p, l, a', b') && OnLine(p, l, a', b'.x, s);
  }

  lemma TangentSame(p: int, a: Point, a': Point, s: Point)
    requires p > 0 && Tangent(p, a, s) && Same(p, a, a')
    ensures Tangent(p, a', s)
  {
    var l: int :| TangentSlope(p, l, a) && OnLine(p, l, a, a.x, s);
    CongRefl(2, p);
    CongRefl(3, p);
    CongRefl(l, p);
    CongMul(2, 2, a.y, a'.y, p);
    CongMul(l, l, 2 * a.y, 2 * a'.y, p);
    CongMul(a.x, a'.x, a.x, a'.x, p);
    CongMul(3, 3, a.x * a.x, a'.x * a'.x, p);
    CongSub(3 * (a.x * a.x), 3 * (a'.x * a'.x), 3, 3, p);
    CongSym(l * (2 * a.y), l * (2 * a'.y), p);
    CongTrans(l * (2 * a'.y), l * (2 * a.y), 3 * (a.x * a.x) - 3, p);
    CongTrans(l * (2 * a'.y), 3 * (a.x * a.x) - 3, 3 * (a'.x * a'.x) - 3, p);
    LineCong(p, l, a, a.x, a', a'.x, s);
    assert TangentSlope(p, l, a') && OnLine(p, l, a', a'.x, s);
  }

  /** Adding (0, 0) as if it were a point gives back no point but (0, 0). */
  lemma ZeroAdded(p: int, b: Point)
    requires IsField(p) && p % 2 == 1 && !Same(p, b, Point(0, 0))
    ensures Plus(p, Point(0, 0), b).Pt? ==> !Same(p, Plus(p, Point(0, 0), b).at, b)
  {
    var v := Plus(p, Point(0, 0), b);
    if v.Pt? && Same(p, v.at, b) {
      var l: int :| Slope(p, l, Point(0, 0), b) && OnLine(p, l, Point(0, 0), b.x, v.at);
      ZeroChord(p, l, b, v.at);
      assert false;
    }
  }

  /** If the chord sum of (0, 0) and b were b, the x of b would be zero. */
  lemma ZeroChord(p: int, l: int, b: Point, c: Point)
    requires IsField(p) && p % 2 == 1 && Cong(l * b.x, b.y, p)
    requires Cong(c.x, l * l - b.x, p) && Cong(c.y, l * (0 - c.x), p) && Same(p, c, b)
    ensures Cong(b.x, 0, p)
  {
    SelfOpposite(p, l, b, c);
    if !Cong(b.x, 0, p) {
      CongTrans(l * b.x, b.y, 0, p);
      assert 0 * b.x == 0;
      CancelFactor(p, l, 0, b.x);
      CongMul(l, 0, l, 0, p);
      CongRefl(b.x, p);
      CongSub(l * l, 0, b.x, b.x, p);
      CongTrans(c.x, l * l - b.x, -b.x, p);
      CongSym(c.x, b.x, p);
      CongTrans(b.x, c.x, -b.x, p);
      DoubleZero(p, b.x);
    }
  }

  lemma DoubleZero(p: int, x: int)
    requires p > 0 && p % 2 == 1 && Cong(x, -x, p)
    ensures Cong(x, 0, p)
  {
    CongRefl(x, p);
    CongAdd(x, -x, x, x, p);
    assert x + x == 2 * x && -x + x == 2 * 0;
    CancelTwo(x, 0, p);
  }

  /** y is -l x, and l x is y, so y is its own opposite. */
  lemma SelfOpposite(p: int, l: int, b: Point, c: Point)
    requires p > 0 && p % 2 == 1 && Cong(l * b.x, b.y, p) && Cong(c.y, l * (0 - c.x), p) && Same(p, c, b)
    ensures Cong(b.y, 0, p)
  {
    CongRefl(l, p);
    CongMul(l, l, c.x, b.x, p);
    CongTrans(l * c.x, l * b.x, b.y, p);
    CongRefl(0, p);
    CongSub(0, 0, l * c.x, b.y, p);
    assert l * (0 - c.x) == 0 - l * c.x;
    CongSym(c.y, b.y, p);
    CongTrans(b.y, c.y, 0 - l * c.x, p);
    CongTrans(b.y, 0 - l * c.x, -b.y, p);
    DoubleZero(p, b.y);
  }
}
