/** Co-Z point formulas of sign_tool/gm/ecc.c, over the integers modulo p. */
module CoZ {
  import opened Arith
  import opened Field

  /** An affine point. */
  datatype Point = Point(x: int, y: int)

  /** (x, y) is the affine point a scaled by z: x = a.x z^2, y = a.y z^3. */
  ghost predicate Rep(p: int, x: int, y: int, z: int, a: Point)
    requires p > 0
  {
    Cong(x, a.x * (z * z), p) && Cong(y, a.y * (z * z * z), p)
  }

  /** c is the reflected third point of the line of slope l through a that also meets x-coordinate bx. */
  ghost predicate OnLine(p: int, l: int, a: Point, bx: int, c: Point)
    requires p > 0
  {
    Cong(c.x, l * l - a.x - bx, p) && Cong(c.y, l * (a.x - c.x) - a.y, p)
  }

  /** l is the slope of the chord through a and b. */
  ghost predicate Slope(p: int, l: int, a: Point, b: Point)
    requires p > 0
  {
    Cong(l * (b.x - a.x), b.y - a.y, p)
  }

  /** c is the chord sum of a and b. */
  ghost predicate Chord(p: int, a: Point, b: Point, c: Point)
    requires p > 0
  {
    exists l: int :: Slope(p, l, a, b) && OnLine(p, l, a, b.x, c)
  }

  /** The polynomials of a co-Z addition of (px, py) and (qx, qy), with w in place of qy - py:
      b and c are the scaled x-coordinates, e the scaled y-coordinate of the first point. */
  ghost predicate Sum(p: int, px: int, py: int, qx: int, w: int, x: int, y: int)
    requires p > 0
  {
    var d := qx - px; var b := px * (d * d); var c := qx * (d * d); var e := py * (c - b);
    Cong(x, w * w - b - c, p) && Cong(y, w * (b - (w * w - b - c)) - e, p)
  }

  ghost predicate Scaled(p: int, px: int, py: int, qx: int, x: int, y: int)
    requires p > 0
  {
    var d := qx - px; var b := px * (d * d); var c := qx * (d * d);
    Cong(x, b, p) && Cong(y, py * (c - b), p)
  }

  ghost predicate Reduced(p: int, x: int) {
    0 <= x < p
  }

  /** (x1, y1) and (x2, y2) become the first point rescaled and the sum. */
  method XYcZAdd(p: int, px: int, py: int, qx: int, qy: int) returns (x1: int, y1: int, x2: int, y2: int)
    requires p > 0
    ensures Reduced(p, x1) && Reduced(p, y1) && Reduced(p, x2) && Reduced(p, y2)
    ensures Scaled(p, px, py, qx, x1, y1) && Sum(p, px, py, qx, qy - py, x2, y2)
  {
    ghost var d, w := qx - px, qy - py;
    ghost var b, c := px * (d * d), qx * (d * d);
    ghost var x3 := w * w - b - c;
    CongRefl(px, p);
    CongRefl(py, p);
    CongRefl(qx, p);
    CongRefl(qy, p);
    x1, y1, x2, y2 := px, py, qx, qy;
    var t5 := FSub(p, x2, x1);
    MulTo(p, t5, t5, d, d);
    t5 := FMul(p, t5, t5);
    MulTo(p, x1, t5, px, d * d);
    x1 := FMul(p, x1, t5);
    MulTo(p, x2, t5, qx, d * d);
    x2 := FMul(p, x2, t5);
    y2 := FSub(p, y2, y1);
    MulTo(p, y2, y2, w, w);
    t5 := FMul(p, y2, y2);
    SubTo(p, t5, x1, w * w, b);
    t5 := FSub(p, t5, x1);
    SubTo(p, t5, x2, w * w - b, c);
    t5 := FSub(p, t5, x2);
    SubTo(p, x2, x1, c, b);
    x2 := FSub(p, x2, x1);
    MulTo(p, y1, x2, py, c - b);
    y1 := FMul(p, y1, x2);
    SubTo(p, x1, t5, b, x3);
    x2 := FSub(p, x1, t5);
    MulTo(p, y2, x2, w, b - x3);
    y2 := FMul(p, y2, x2);
    SubTo(p, y2, y1, w * (b - x3), py * (c - b));
    y2 := FSub(p, y2, y1);
    x2 := t5;
  }

  /** (x1, y1) and (x2, y2) become the difference and the sum. */
  method XYcZAddC(p: int, px: int, py: int, qx: int, qy: int) returns (x1: int, y1: int, x2: int, y2: int)
    requires p > 0
    ensures Reduced(p, x1) && Reduced(p, y1) && Reduced(p, x2) && Reduced(p, y2)
    ensures Sum(p, px, py, qx, -qy - py, x1, y1) && Sum(p, px, py, qx, qy - py, x2, y2)
  {
    ghost var d, w, v := qx - px, qy - py, qy + py;
    ghost var b, c := px * (d * d), qx * (d * d);
    ghost var e, x3, xm := py * (c - b), w * w - b - c, v * v - (b + c);
    CongRefl(px, p);
    CongRefl(py, p);
    CongRefl(qx, p);
    CongRefl(qy, p);
    x1, y1, x2, y2 := px, py, qx, qy;
    var t5 := FSub(p, x2, x1);
    MulTo(p, t5, t5, d, d);
    t5 := FMul(p, t5, t5);
    MulTo(p, x1, t5, px, d * d);
    x1 := FMul(p, x1, t5);
    MulTo(p, x2, t5, qx, d * d);
    x2 := FMul(p, x2, t5);
    t5 := FAdd(p, y2, y1);
    y2 := FSub(p, y2, y1);
    SubTo(p, x2, x1, c, b);
    var t6 := FSub(p, x2, x1);
    MulTo(p, y1, t6, py, c - b);
    y1 := FMul(p, y1, t6);
    AddTo(p, x1, x2, b, c);
    t6 := FAdd(p, x1, x2);
    MulTo(p, y2, y2, w, w);
    x2 := FMul(p, y2, y2);
    SubTo(p, x2, t6, w * w, b + c);
    x2 := FSub(p, x2, t6);
    SubTo(p, x1, x2, b, x3);
    var t7 := FSub(p, x1, x2);
    MulTo(p, y2, t7, w, b - x3);
    y2 := FMul(p, y2, t7);
    SubTo(p, y2, y1, w * (b - x3), e);
    y2 := FSub(p, y2, y1);
    MulTo(p, t5, t5, v, v);
    t7 := FMul(p, t5, t5);
    SubTo(p, t7, t6, v * v, b + c);
    t7 := FSub(p, t7, t6);
    SubTo(p, t7, x1, xm, b);
    t6 := FSub(p, t7, x1);
    MulTo(p, t6, t5, xm - b, v);
    t6 := FMul(p, t6, t5);
    SubTo(p, t6, y1, (xm - b) * v, e);
    y1 := FSub(p, t6, y1);
    x1 := t7;
    Reflect(v, b, c, e);
  }

  lemma Reflect(v: int, b: int, c: int, e: int)
    ensures (-v) * (-v) - b - c == v * v - (b + c)
    ensures (-v) * (b - ((-v) * (-v) - b - c)) - e == (v * v - (b + c) - b) * v - e
  {
  }

  /** The polynomials of doubling (x, y, z): h is half the slope numerator, the new z is y * z. */
  ghost predicate Doubled(p: int, x: int, y: int, z: int, h: int, x3: int, y3: int, z3: int)
    requires p > 0
  {
    var a := x * (y * y);
    && Cong(2 * h, 3 * ((x + z * z) * (x - z * z)), p) && Cong(z3, y * z, p)
    && Cong(x3, h * h - a - a, p) && Cong(y3, h * (a - (h * h - a - a)) - (y * y) * (y * y), p)
  }

  /** Halving modulo an odd number, as the source does it. */
  method FHalf(p: int, x: int) returns (h: int)
    requires p > 0 && p % 2 == 1 && Reduced(p, x)
    ensures Reduced(p, h) && Cong(2 * h, x, p)
  {
    if x % 2 == 1 {
      h := (x + p) / 2;
      assert 2 * h == x + p;
      CongIntro(x + p, x, p, 1);
    } else {
      h := x / 2;
      assert 2 * h == x;
      CongRefl(x, p);
    }
  }

  /** Jacobian doubling for a curve with a = -3; a zero z is left alone. */
  method DoubleJacobian(p: int, x: int, y: int, z: int) returns (x1: int, y1: int, z1: int, ghost h: int)
    requires p > 0 && p % 2 == 1 && Reduced(p, x) && Reduced(p, y) && Reduced(p, z)
    ensures Reduced(p, x1) && Reduced(p, y1) && Reduced(p, z1)
    ensures z == 0 ==> x1 == x && y1 == y && z1 == z
    ensures z != 0 ==> Doubled(p, x, y, z, h, x1, y1, z1)
  {
    x1, y1, z1, h := x, y, z, 0;
    if z1 == 0 {
      return;
    }
    ghost var a := x * (y * y);
    CongRefl(x, p);
    CongRefl(y, p);
    CongRefl(z, p);
    var t4 := FMul(p, y1, y1);
    MulTo(p, x1, t4, x, y * y);
    var t5 := FMul(p, x1, t4);
    MulTo(p, t4, t4, y * y, y * y);
    t4 := FMul(p, t4, t4);
    y1 := FMul(p, y1, z1);
    z1 := FMul(p, z1, z1);
    var b := HalfNumerator(p, x, z, z1);
    h := b;
    CongRefl(h, p);
    x1 := b;
    z1 := FMul(p, x1, x1);
    SubTo(p, z1, t5, h * h, a);
    z1 := FSub(p, z1, t5);
    SubTo(p, z1, t5, h * h - a, a);
    z1 := FSub(p, z1, t5);
    SubTo(p, t5, z1, a, h * h - a - a);
    t5 := FSub(p, t5, z1);
    MulTo(p, x1, t5, h, a - (h * h - a - a));
    x1 := FMul(p, x1, t5);
    SubTo(p, x1, t4, h * (a - (h * h - a - a)), (y * y) * (y * y));
    t4 := FSub(p, x1, t4);
    x1 := z1;
    z1 := y1;
    y1 := t4;
  }

  /** 3/2 (x + z^2)(x - z^2), given zz = z^2. */
  method HalfNumerator(p: int, x: int, ghost z: int, zz: int) returns (x1: int)
    requires p > 0 && p % 2 == 1 && Reduced(p, x) && Cong(zz, z * z, p)
    ensures Reduced(p, x1) && Cong(2 * x1, 3 * ((x + z * z) * (x - z * z)), p)
  {
    ghost var q := z * z;
    CongRefl(x, p);
    AddTo(p, x, zz, x, q);
    x1 := FAdd(p, x, zz);
    AddTo(p, zz, zz, q, q);
    var z1 := FAdd(p, zz, zz);
    SubTo(p, x1, z1, x + q, q + q);
    z1 := FSub(p, x1, z1);
    MulTo(p, x1, z1, x + q, x + q - (q + q));
    x1 := FMul(p, x1, z1);
    ghost var m := (x + q) * (x - q);
    assert x + q - (q + q) == x - q;
    AddTo(p, x1, x1, m, m);
    z1 := FAdd(p, x1, x1);
    AddTo(p, x1, z1, m, m + m);
    x1 := FAdd(p, x1, z1);
    ghost var full := x1;
    x1 := FHalf(p, x1);
    assert m + (m + m) == 3 * m;
    CongTrans(2 * x1, full, 3 * m, p);
  }

  /** (x, y) => (x z^2, y z^3). */
  method ApplyZ(p: int, x: int, y: int, z: int) returns (x1: int, y1: int)
    requires p > 0
    ensures Reduced(p, x1) && Reduced(p, y1)
    ensures Cong(x1, x * (z * z), p) && Cong(y1, y * (z * z * z), p)
  {
    CongRefl(x, p);
    CongRefl(y, p);
    CongRefl(z, p);
    var t1 := FMul(p, z, z);
    MulTo(p, x, t1, x, z * z);
    x1 := FMul(p, x, t1);
    MulTo(p, t1, z, z * z, z);
    t1 := FMul(p, t1, z);
    MulTo(p, y, t1, y, z * z * z);
    y1 := FMul(p, y, t1);
  }
}
