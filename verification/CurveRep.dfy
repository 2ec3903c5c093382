/** What the co-Z polynomials mean: on scaled affine points they are chord sums and tangent doubles. */
module CurveRep {
  import opened Arith
  import opened CoZ

  lemma CongTimes(a: int, b: int, c: int, p: int)
    requires p > 0 && Cong(a, b, p)
    ensures Cong(a * c, b * c, p)
  {
    CongRefl(c, p);
    CongMul(a, b, c, c, p);
  }

  /** The scaled line: with the slope scaled by z, the polynomials give the scaled sum. */
  lemma LineX(p: int, l: int, w: int, z: int, b: int, c: int, a: Point, bx: int, s: Point)
    requires p > 0 && OnLine(p, l, a, bx, s)
    requires Cong(w, l * z, p) && Cong(b, a.x * (z * z), p) && Cong(c, bx * (z * z), p)
    ensures Cong(w * w - b - c, s.x * (z * z), p)
  {
    CongMul(w, l * z, w, l * z, p);
    CongSub(w * w, (l * z) * (l * z), b, a.x * (z * z), p);
    CongSub(w * w - b, (l * z) * (l * z) - a.x * (z * z), c, bx * (z * z), p);
    assert (l * z) * (l * z) - a.x * (z * z) - bx * (z * z) == (l * l - a.x - bx) * (z * z);
    CongSym(s.x, l * l - a.x - bx, p);
    CongTimes(l * l - a.x - bx, s.x, z * z, p);
    CongTrans(w * w - b - c, (l * l - a.x - bx) * (z * z), s.x * (z * z), p);
  }

  lemma LineY(p: int, l: int, w: int, z: int, b: int, x: int, e: int, a: Point, bx: int, s: Point)
    requires p > 0 && OnLine(p, l, a, bx, s)
    requires Cong(w, l * z, p) && Cong(b, a.x * (z * z), p)
    requires Cong(x, s.x * (z * z), p) && Cong(e, a.y * (z * z * z), p)
    ensures Cong(w * (b - x) - e, s.y * (z * z * z), p)
  {
    var zz := z * z;
    CongSub(b, a.x * zz, x, s.x * zz, p);
    CongMul(w, l * z, b - x, a.x * zz - s.x * zz, p);
    CongSub(w * (b - x), (l * z) * (a.x * zz - s.x * zz), e, a.y * (zz * z), p);
    LineYIdentity(l, z, zz, a.x, s.x, a.y);
    CongSym(s.y, l * (a.x - s.x) - a.y, p);
    CongTimes(l * (a.x - s.x) - a.y, s.y, zz * z, p);
    CongTrans(w * (b - x) - e, (l * (a.x - s.x) - a.y) * (zz * z), s.y * (zz * z), p);
  }

  lemma LineYIdentity(l: int, z: int, zz: int, ax: int, sx: int, ay: int)
    ensures (l * z) * (ax * zz - sx * zz) - ay * (zz * z) == (l * (ax - sx) - ay) * (zz * z)
  {
  }

  /** x-coordinates scaled by z, then by the difference d, are scaled by z * d. */
  lemma ScaleX(p: int, x: int, ax: int, z: int, d: int)
    requires p > 0 && Cong(x, ax * (z * z), p)
    ensures Cong(x * (d * d), ax * ((z * d) * (z * d)), p)
  {
    CongTimes(x, ax * (z * z), d * d, p);
    assert (ax * (z * z)) * (d * d) == ax * ((z * d) * (z * d));
  }

  lemma ScaleY(p: int, px: int, qx: int, y: int, ay: int, z: int)
    requires p > 0 && Cong(y, ay * (z * z * z), p)
    ensures var d := qx - px; Cong(y * (qx * (d * d) - px * (d * d)), ay * ((z * d) * (z * d) * (z * d)), p)
  {
    var d := qx - px;
    CongTimes(y, ay * (z * z * z), d * d * d, p);
    assert qx * (d * d) - px * (d * d) == d * d * d;
    CubeIdentity(ay, z, d);
  }

  lemma CubeIdentity(a: int, z: int, d: int)
    ensures (a * (z * z * z)) * (d * d * d) == a * ((z * d) * (z * d) * (z * d))
  {
    var zz, dd := z * z, d * d;
    assert (z * d) * (z * d) == zz * dd;
    assert (zz * z) * (dd * d) == (zz * dd) * (z * d);
  }

  /** The difference of the scaled y-coordinates is the slope scaled by z * (x2 - x1). */
  lemma ScaledSlope(p: int, l: int, a: Point, b: Point, px: int, qx: int, w: int, z: int)
    requires p > 0 && Slope(p, l, a, b)
    requires Cong(px, a.x * (z * z), p) && Cong(qx, b.x * (z * z), p)
    requires Cong(w, (b.y - a.y) * (z * z * z), p)
    ensures Cong(w, l * (z * (qx - px)), p)
  {
    var zz := z * z;
    CongSub(qx, b.x * zz, px, a.x * zz, p);
    CongTimes(qx - px, b.x * zz - a.x * zz, l * z, p);
    assert (b.x * zz - a.x * zz) * (l * z) == (l * (b.x - a.x)) * (zz * z);
    assert (qx - px) * (l * z) == l * (z * (qx - px));
    CongTimes(l * (b.x - a.x), b.y - a.y, zz * z, p);
    CongTrans(l * (z * (qx - px)), (l * (b.x - a.x)) * (zz * z), (b.y - a.y) * (zz * z), p);
    CongSym(l * (z * (qx - px)), (b.y - a.y) * (zz * z), p);
    CongTrans(w, (b.y - a.y) * (zz * z), l * (z * (qx - px)), p);
  }

  /** The sum polynomials are the chord sum over z * (x2 - x1). */
  lemma SumMeans(p: int, px: int, py: int, qx: int, w: int, z: int, x: int, y: int, a: Point, b: Point, s: Point)
    requires p > 0 && Chord(p, a, b, s) && Rep(p, px, py, z, a)
    requires Cong(qx, b.x * (z * z), p) && Cong(w, (b.y - a.y) * (z * z * z), p)
    requires Sum(p, px, py, qx, w, x, y)
    ensures Rep(p, x, y, z * (qx - px), s)
  {
    var l: int :| Slope(p, l, a, b) && OnLine(p, l, a, b.x, s);
    var d := qx - px;
    var t := z * d;
    ScaledSlope(p, l, a, b, px, qx, w, z);
    ScaleX(p, px, a.x, z, d);
    ScaleX(p, qx, b.x, z, d);
    ScaleY(p, px, qx, py, a.y, z);
    var bb, c := px * (d * d), qx * (d * d);
    var x3, e := w * w - bb - c, py * (c - bb);
    LineX(p, l, w, t, bb, c, a, b.x, s);
    LineY(p, l, w, t, bb, x3, e, a, b.x, s);
    CongTrans(x, x3, s.x * (t * t), p);
    CongTrans(y, w * (bb - x3) - e, s.y * (t * t * t), p);
  }

  lemma ScaledMeans(p: int, px: int, py: int, qx: int, z: int, x: int, y: int, a: Point)
    requires p > 0 && Rep(p, px, py, z, a) && Scaled(p, px, py, qx, x, y)
    ensures Rep(p, x, y, z * (qx - px), a)
  {
    var d := qx - px;
    ScaleX(p, px, a.x, z, d);
    ScaleY(p, px, qx, py, a.y, z);
    CongTrans(x, px * (d * d), a.x * ((z * d) * (z * d)), p);
    CongTrans(y, py * (qx * (d * d) - px * (d * d)), a.y * ((z * d) * (z * d) * (z * d)), p);
  }

  lemma DifferenceY(p: int, py: int, qy: int, a: Point, b: Point, z: int)
    requires p > 0 && Cong(py, a.y * (z * z * z), p) && Cong(qy, b.y * (z * z * z), p)
    ensures Cong(qy - py, (b.y - a.y) * (z * z * z), p)
    ensures Cong(-qy - py, (-b.y - a.y) * (z * z * z), p)
  {
    var k := z * z * z;
    CongSub(qy, b.y * k, py, a.y * k, p);
    assert b.y * k - a.y * k == (b.y - a.y) * k;
    CongRefl(0, p);
    CongSub(0, 0, qy, b.y * k, p);
    CongSub(-qy, -(b.y * k), py, a.y * k, p);
    assert -(b.y * k) - a.y * k == (-b.y - a.y) * k;
  }

  /** XYcZ_add: both results share z * (x2 - x1); they are the first point and the sum. */
  lemma AddMeans(p: int, px: int, py: int, qx: int, qy: int, z: int,
                 x1: int, y1: int, x2: int, y2: int, a: Point, b: Point, s: Point)
    requires p > 0 && Rep(p, px, py, z, a) && Rep(p, qx, qy, z, b) && Chord(p, a, b, s)
    requires Scaled(p, px, py, qx, x1, y1) && Sum(p, px, py, qx, qy - py, x2, y2)
    ensures Rep(p, x1, y1, z * (qx - px), a) && Rep(p, x2, y2, z * (qx - px), s)
  {
    ScaledMeans(p, px, py, qx, z, x1, y1, a);
    DifferenceY(p, py, qy, a, b, z);
    SumMeans(p, px, py, qx, qy - py, z, x2, y2, a, b, s);
  }

  /** XYcZ_addC: both results share z * (x2 - x1); they are the difference and the sum. */
  lemma AddCMeans(p: int, px: int, py: int, qx: int, qy: int, z: int,
                  x1: int, y1: int, x2: int, y2: int, a: Point, b: Point, m: Point, s: Point)
    requires p > 0 && Rep(p, px, py, z, a) && Rep(p, qx, qy, z, b)
    requires Chord(p, a, b, s) && Chord(p, a, Point(b.x, -b.y), m)
    requires Sum(p, px, py, qx, -qy - py, x1, y1) && Sum(p, px, py, qx, qy - py, x2, y2)
    ensures Rep(p, x1, y1, z * (qx - px), m) && Rep(p, x2, y2, z * (qx - px), s)
  {
    DifferenceY(p, py, qy, a, b, z);
    SumMeans(p, px, py, qx, qy - py, z, x2, y2, a, b, s);
    SumMeans(p, px, py, qx, -qy - py, z, x1, y1, a, Point(b.x, -b.y), m);
  }

  /** s is the tangent double of a on a curve with a = -3. */
  ghost predicate Tangent(p: int, a: Point, s: Point)
    requires p > 0
  {
    exists l: int :: TangentSlope(p, l, a) && OnLine(p, l, a, a.x, s)
  }

  ghost predicate TangentSlope(p: int, l: int, a: Point)
    requires p > 0
  {
    Cong(l * (2 * a.y), 3 * (a.x * a.x) - 3, p)
  }

  /** Rescaling by a congruent factor changes nothing. */
  lemma RepCong(p: int, x: int, y: int, z: int, z': int, a: Point)
    requires p > 0 && Rep(p, x, y, z, a) && Cong(z, z', p)
    ensures Rep(p, x, y, z', a)
  {
    CongMul(z, z', z, z', p);
    CongMul(z * z, z' * z', z, z', p);
    CongRefl(a.x, p);
    CongRefl(a.y, p);
    CongMul(a.x, a.x, z * z, z' * z', p);
    CongMul(a.y, a.y, z * z * z, z' * z' * z', p);
    CongTrans(x, a.x * (z * z), a.x * (z' * z'), p);
    CongTrans(y, a.y * (z * z * z), a.y * (z' * z' * z'), p);
  }

  /** Half the slope numerator is the slope scaled by y * z. */
  lemma DoubleSlope(p: int, l: int, a: Point, x: int, y: int, z: int, h: int)
    requires p > 0 && p % 2 == 1 && TangentSlope(p, l, a) && Rep(p, x, y, z, a)
    requires Cong(2 * h, 3 * ((x + z * z) * (x - z * z)), p)
    ensures Cong(h, l * (y * z), p)
  {
    var q, n := z * z, 3 * (a.x * a.x) - 3;
    // 2h is 3 (x^2 - z^4), and so (3 a.x^2 - 3) z^4
    CongRefl(q, p);
    CongAdd(x, a.x * q, q, q, p);
    CongSub(x, a.x * q, q, q, p);
    CongMul(x + q, a.x * q + q, x - q, a.x * q - q, p);
    CongRefl(3, p);
    CongMul(3, 3, (x + q) * (x - q), (a.x * q + q) * (a.x * q - q), p);
    NumeratorIdentity(a.x, q);
    CongTrans(2 * h, 3 * ((x + q) * (x - q)), n * (q * q), p);
    // 2 l y z is l (2 a.y) z^4
    CongTimes(y, a.y * (q * z), 2 * l * z, p);
    SlopeIdentity(l, a.y, q, z);
    CongTimes(l * (2 * a.y), n, q * q, p);
    assert y * (2 * l * z) == 2 * (l * (y * z));
    CongTrans(2 * (l * (y * z)), (l * (2 * a.y)) * (q * q), n * (q * q), p);
    CongSym(2 * (l * (y * z)), n * (q * q), p);
    CongTrans(2 * h, n * (q * q), 2 * (l * (y * z)), p);
    CancelTwo(h, l * (y * z), p);
  }

  lemma NumeratorIdentity(x: int, q: int)
    ensures 3 * ((x * q + q) * (x * q - q)) == (3 * (x * x) - 3) * (q * q)
  {
  }

  lemma SlopeIdentity(l: int, y: int, q: int, z: int)
    requires q == z * z
    ensures (y * (q * z)) * (2 * l * z) == (l * (2 * y)) * (q * q)
  {
    assert (q * z) * z == q * q;
    assert (y * (q * z)) * (2 * l * z) == (2 * l * y) * ((q * z) * z);
  }

  lemma TangentScaleX(p: int, x: int, y: int, z: int, a: Point)
    requires p > 0 && Rep(p, x, y, z, a)
    ensures Cong(x * (y * y), a.x * ((y * z) * (y * z)), p)
  {
    CongTimes(x, a.x * (z * z), y * y, p);
    assert (a.x * (z * z)) * (y * y) == a.x * ((y * z) * (y * z));
  }

  lemma TangentScaleY(p: int, x: int, y: int, z: int, a: Point)
    requires p > 0 && Rep(p, x, y, z, a)
    ensures Cong((y * y) * (y * y), a.y * ((y * z) * (y * z) * (y * z)), p)
  {
    CongTimes(y, a.y * (z * z * z), y * y * y, p);
    assert y * (y * y * y) == (y * y) * (y * y);
    CubeIdentity(a.y, z, y);
    assert z * y == y * z;
  }

  /** ecc_point_double_jacobian: the result is the tangent double over y * z. */
  lemma DoubleMeans(p: int, x: int, y: int, z: int, h: int, x3: int, y3: int, z3: int, a: Point, s: Point)
    requires p > 0 && p % 2 == 1 && Rep(p, x, y, z, a) && Tangent(p, a, s)
    requires Doubled(p, x, y, z, h, x3, y3, z3)
    ensures Rep(p, x3, y3, z3, s)
  {
    var l: int :| TangentSlope(p, l, a) && OnLine(p, l, a, a.x, s);
    var t, b, e := y * z, x * (y * y), (y * y) * (y * y);
    DoubleSlope(p, l, a, x, y, z, h);
    TangentScaleX(p, x, y, z, a);
    TangentScaleY(p, x, y, z, a);
    LineX(p, l, h, t, b, b, a, a.x, s);
    LineY(p, l, h, t, b, h * h - b - b, e, a, a.x, s);
    CongTrans(x3, h * h - b - b, s.x * (t * t), p);
    CongTrans(y3, h * (b - (h * h - b - b)) - e, s.y * (t * t * t), p);
    CongSym(z3, t, p);
    RepCong(p, x3, y3, t, z3, s);
  }
}
