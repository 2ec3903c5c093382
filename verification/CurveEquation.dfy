/** The curve equation y^2 = x^3 - 3x + b, and what chords and tangents do to points off the curve. */
module CurveEquation {
  import opened Arith
  import opened Field
  import opened CoZ
  import opened CurveRep
  import opened AffinePoints

  /** The b of the curve that goes through q. */
  function Residue(q: Point): int {
    q.y * q.y - q.x * (q.x * q.x) + 3 * q.x
  }

  ghost predicate OnCurve(p: int, b: int, q: Point)
    requires p > 0
  {
    Cong(Residue(q), b, p)
  }

  lemma ResidueSame(p: int, a: Point, b: Point)
    requires p > 0 && Same(p, a, b)
    ensures Cong(Residue(a), Residue(b), p)
  {
    CongMul(a.y, b.y, a.y, b.y, p);
    CongMul(a.x, b.x, a.x, b.x, p);
    CongMul(a.x, b.x, a.x * a.x, b.x * b.x, p);
    CongRefl(3, p);
    CongMul(3, 3, a.x, b.x, p);
    CongSub(a.y * a.y, b.y * b.y, a.x * (a.x * a.x), b.x * (b.x * b.x), p);
    CongAdd(a.y * a.y - a.x * (a.x * a.x), b.y * b.y - b.x * (b.x * b.x), 3 * a.x, 3 * b.x, p);
  }

  /** Along the line of slope l through a the residue changes by x - a.x times this. */
  function Factor(l: int, a: Point, x: int): int {
    l * l * (x - a.x) + 2 * (l * a.y) - (x * x + x * a.x + a.x * a.x) + 3
  }

  lemma Cubes(x: int, z: int)
    ensures x * (x * x) - z * (z * z) == (x - z) * (x * x + x * z + z * z)
  {
    assert (x - z) * (x * x + x * z + z * z) == x * (x * x + x * z + z * z) - z * (x * x + x * z + z * z);
    assert x * (x * z) == x * x * z && z * (x * x) == x * x * z && x * (z * z) == x * z * z && z * (x * z) == x * z * z;
  }

  lemma Squares(y: int, d: int)
    ensures (y + d) * (y + d) - y * y == d * d + 2 * (y * d)
  {
  }

  lemma Rise(l: int, a: Point, x: int, y: int)
    requires y == a.y + l * (x - a.x) || y == l * (a.x - x) - a.y
    ensures Residue(Point(x, y)) - Residue(a) == (x - a.x) * Factor(l, a, x)
  {
    var u := x - a.x;
    var d := l * u;
    Squares(a.y, d);
    Cubes(x, a.x);
    assert l * (a.x - x) == -d;
    assert y * y == (a.y + d) * (a.y + d);
    RiseTerms(l, a.y, u, x * x + x * a.x + a.x * a.x);
  }

  lemma RiseTerms(l: int, y: int, u: int, s: int)
    ensures (l * u) * (l * u) + 2 * (y * (l * u)) - u * s + 3 * u == u * (l * l * u + 2 * (l * y) - s + 3)
  {
    assert (l * u) * (l * u) == u * (l * l * u);
    assert y * (l * u) == u * (l * y);
    assert u * (l * l * u + 2 * (l * y) - s + 3) == u * (l * l * u) + 2 * (u * (l * y)) - u * s + 3 * u;
  }

  /** The factor is the same at both other points of the line, */
  lemma SameFactor(l: int, a: Point, x: int, z: int)
    requires l * l == a.x + x + z
    ensures Factor(l, a, x) == Factor(l, a, z)
  {
    var m := a.x + x + z;
    assert m * (x - a.x) - m * (z - a.x) == m * (x - z);
    assert m * (x - z) == x * x + x * a.x - (z * z + z * a.x);
  }

  /** and on a tangent it is what the slope was made for. */
  lemma TangentFactor(l: int, a: Point, x: int)
    requires l * l == a.x + a.x + x
    ensures Factor(l, a, x) == l * (2 * a.y) - (3 * (a.x * a.x) - 3)
  {
    var m := a.x + a.x + x;
    assert m * (x - a.x) == x * x + x * a.x - 2 * (a.x * a.x);
    assert l * (2 * a.y) == 2 * (l * a.y);
  }

  lemma RiseCong(p: int, l: int, a: Point, q: Point, x: int, y: int)
    requires p > 0 && Same(p, q, Point(x, y)) && (y == a.y + l * (x - a.x) || y == l * (a.x - x) - a.y)
    ensures Cong(Residue(q) - Residue(a), (x - a.x) * Factor(l, a, x), p)
  {
    ResidueSame(p, q, Point(x, y));
    CongRefl(Residue(a), p);
    CongSub(Residue(q), Residue(Point(x, y)), Residue(a), Residue(a), p);
    Rise(l, a, x, y);
  }

  /** The reflected third point, with exact coordinates. */
  lemma ThirdSame(p: int, l: int, a: Point, bx: int, c: Point)
    requires p > 0 && OnLine(p, l, a, bx, c)
    ensures var x := l * l - a.x - bx; Same(p, c, Point(x, l * (a.x - x) - a.y))
  {
    var x := l * l - a.x - bx;
    CongRefl(a.x, p);
    CongSub(a.x, a.x, c.x, x, p);
    CongRefl(l, p);
    CongMul(l, l, a.x - c.x, a.x - x, p);
    CongRefl(a.y, p);
    CongSub(l * (a.x - c.x), l * (a.x - x), a.y, a.y, p);
    CongTrans(c.y, l * (a.x - c.x) - a.y, l * (a.x - x) - a.y, p);
  }

  lemma SecondSame(p: int, l: int, a: Point, b: Point)
    requires p > 0 && Slope(p, l, a, b)
    ensures Same(p, b, Point(b.x, a.y + l * (b.x - a.x)))
  {
    CongRefl(b.x, p);
    CongRefl(a.y, p);
    CongSym(l * (b.x - a.x), b.y - a.y, p);
    CongAdd(a.y, a.y, b.y - a.y, l * (b.x - a.x), p);
  }

  /** Along a chord the residue is linear in x. */
  lemma ChordResidue(p: int, a: Point, b: Point, c: Point)
    requires p > 0 && Chord(p, a, b, c)
    ensures Cong((b.x - a.x) * (Residue(c) - Residue(a)), (c.x - a.x) * (Residue(b) - Residue(a)), p)
  {
    var l: int :| Slope(p, l, a, b) && OnLine(p, l, a, b.x, c);
    var x := l * l - a.x - b.x;
    var f := Factor(l, a, x);
    SecondSame(p, l, a, b);
    RiseCong(p, l, a, b, b.x, a.y + l * (b.x - a.x));
    SameFactor(l, a, x, b.x);
    ThirdSame(p, l, a, b.x, c);
    RiseCong(p, l, a, c, x, l * (a.x - x) - a.y);
    CrossProducts(p, b.x - a.x, c.x - a.x, x - a.x, Residue(b) - Residue(a), Residue(c) - Residue(a), f, a.x, c.x, x);
  }

  lemma CrossProducts(p: int, d: int, e: int, e': int, s: int, t: int, f: int, ax: int, cx: int, x: int)
    requires p > 0 && Cong(s, d * f, p) && Cong(t, e' * f, p) && Cong(cx, x, p) && e == cx - ax && e' == x - ax
    ensures Cong(d * t, e * s, p)
  {
    CongRefl(d, p);
    CongMul(d, d, t, e' * f, p);
    CongRefl(ax, p);
    CongSub(cx, x, ax, ax, p);
    CongMul(e, e', s, d * f, p);
    assert d * (e' * f) == e' * (d * f);
    CongSym(e * s, e' * (d * f), p);
    CongTrans(d * t, d * (e' * f), e * s, p);
  }

  /** A tangent stays on the curve of its point. */
  lemma TangentResidue(p: int, a: Point, c: Point)
    requires p > 0 && Tangent(p, a, c)
    ensures Cong(Residue(c), Residue(a), p)
  {
    var l: int :| TangentSlope(p, l, a) && OnLine(p, l, a, a.x, c);
    var x, n := l * l - a.x - a.x, 3 * (a.x * a.x) - 3;
    ThirdSame(p, l, a, a.x, c);
    RiseCong(p, l, a, c, x, l * (a.x - x) - a.y);
    TangentFactor(l, a, x);
    CongRefl(n, p);
    CongSub(l * (2 * a.y), n, n, n, p);
    CongRefl(x - a.x, p);
    CongMul(x - a.x, x - a.x, Factor(l, a, x), 0, p);
    CongTrans(Residue(c) - Residue(a), (x - a.x) * Factor(l, a, x), 0, p);
    CongRefl(Residue(a), p);
    CongAdd(Residue(c) - Residue(a), 0, Residue(a), Residue(a), p);
  }
}
