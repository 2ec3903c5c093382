/** The co-Z formulas on exceptional operands: points with equal x leave values with y^2 = x^3, and from there
    everything becomes zero. */
module Cusp {
  import opened Arith
  import opened CoZ

  ghost predicate OnCusp(p: int, x: int, y: int)
    requires p > 0
  {
    Cong(y * y, x * (x * x), p)
  }

  ghost predicate Origin(x: int, y: int) {
    x == 0 && y == 0
  }

  lemma CuspDifference(p: int, x: int, y: int)
    requires p > 0 && OnCusp(p, x, y)
    ensures Cong(y * y - x * (x * x), 0, p)
  {
    CongRefl(x * (x * x), p);
    CongSub(y * y, x * (x * x), x * (x * x), x * (x * x), p);
  }

  /** A reduced number congruent to a multiple of something congruent to zero. */
  lemma ReducedZero(p: int, x: int, u: int, f: int)
    requires p > 0 && Reduced(p, x) && Cong(u, 0, p) && Cong(x, u * f, p)
    ensures x == 0
  {
    CongRefl(f, p);
    CongMul(u, 0, f, f, p);
    CongTrans(x, u * f, 0, p);
    CongSmall(x, 0, p);
  }

  /** Adding to (0, 0) a point with y^2 = x^3. */
  lemma SumFromZero(p: int, qx: int, w: int, x: int, y: int)
    requires p > 0 && Sum(p, 0, 0, qx, w, x, y) && OnCusp(p, qx, w) && Reduced(p, x) && Reduced(p, y)
    ensures Origin(x, y)
  {
    CuspDifference(p, qx, w);
    var u := w * w - qx * (qx * qx);
    FromZeroTerms(qx, w);
    ReducedZero(p, x, u, 1);
    ReducedZero(p, y, u, -w);
  }

  lemma FromZeroTerms(qx: int, w: int)
    ensures var d := qx - 0; var b := 0 * (d * d); var c := qx * (d * d); var e := 0 * (c - b);
      var u := w * w - qx * (qx * qx);
      && w * w - b - c == u * 1 && w * (b - (w * w - b - c)) - e == u * (-w)
  {
  }

  /** Adding (0, 0) to a point with y^2 = x^3. */
  lemma SumToZero(p: int, px: int, py: int, x: int, y: int)
    requires p > 0 && Sum(p, px, py, 0, -py, x, y) && OnCusp(p, px, py) && Reduced(p, x) && Reduced(p, y)
    ensures Origin(x, y)
  {
    CuspDifference(p, px, py);
    var u := py * py - px * (px * px);
    ToZeroTerms(px, py);
    ReducedZero(p, x, u, 1);
    ReducedZero(p, y, u, py);
  }

  lemma ToZeroTerms(px: int, py: int)
    ensures var d := 0 - px; var b := px * (d * d); var c := 0 * (d * d); var e := py * (c - b);
      var u := py * py - px * (px * px); var w := -py;
      && w * w - b - c == u * 1 && w * (b - (w * w - b - c)) - e == u * py
  {
    var b := px * (px * px);
    assert (0 - px) * (0 - px) == px * px;
    assert (-py) * (-py) == py * py;
    assert (-py) * (b - (py * py - b)) - py * (0 - b) == (py * py - b) * py;
  }

  /** Points with the same x: what is left is w^2 and -w^3. */
  lemma SumLevel(p: int, px: int, py: int, qx: int, w: int, x: int, y: int)
    requires p > 0 && Cong(qx - px, 0, p) && Sum(p, px, py, qx, w, x, y)
    ensures Cong(x, w * w, p) && Cong(y, -w * (w * w), p)
  {
    var d := qx - px;
    var b, c := px * (d * d), qx * (d * d);
    var e := py * (c - b);
    LevelTerm(p, d, px * d);
    LevelTerm(p, d, qx * d);
    assert d * (px * d) == b && d * (qx * d) == c;
    CongSub(c, 0, b, 0, p);
    LevelTerm(p, c - b, py);
    assert (c - b) * py == e;
    CongRefl(w * w, p);
    CongSub(w * w, w * w, b, 0, p);
    CongSub(w * w - b, w * w, c, 0, p);
    var v := w * w - b - c;
    CongTrans(x, v, w * w, p);
    CongSub(b, 0, v, w * w, p);
    CongRefl(w, p);
    CongMul(w, w, b - v, 0 - w * w, p);
    CongSub(w * (b - v), w * (0 - w * w), e, 0, p);
    assert w * (0 - w * w) == -w * (w * w);
    CongTrans(y, w * (b - v) - e, -w * (w * w), p);
  }

  lemma LevelTerm(p: int, u: int, f: int)
    requires p > 0 && Cong(u, 0, p)
    ensures Cong(u * f, 0, p)
  {
    CongRefl(f, p);
    CongMul(u, 0, f, f, p);
  }

  lemma LevelCusp(p: int, w: int, x: int, y: int)
    requires p > 0 && Cong(x, w * w, p) && Cong(y, -w * (w * w), p)
    ensures OnCusp(p, x, y)
  {
    var s := w * w;
    CongMul(y, -w * s, y, -w * s, p);
    CongMul(x, s, x, s, p);
    CongMul(x, s, x * x, s * s, p);
    assert (-w) * (-w) == s;
    assert (-w * s) * (-w * s) == ((-w) * (-w)) * (s * s);
    CongSym(x * (x * x), s * (s * s), p);
    CongTrans(y * y, s * (s * s), x * (x * x), p);
  }

  lemma LevelZero(p: int, w: int, x: int, y: int)
    requires p > 0 && Cong(w, 0, p) && Cong(x, w * w, p) && Cong(y, -w * (w * w), p) && Reduced(p, x) && Reduced(p, y)
    ensures Origin(x, y)
  {
    ReducedZero(p, x, w, w);
    assert -w * (w * w) == w * (-(w * w));
    ReducedZero(p, y, w, -(w * w));
  }

  /** Rescaling by the difference from (0, 0) keeps y^2 = x^3. */
  lemma ScaledCusp(p: int, px: int, py: int, x: int, y: int)
    requires p > 0 && Scaled(p, px, py, 0, x, y) && OnCusp(p, px, py)
    ensures OnCusp(p, x, y)
  {
    var b := px * (px * px);
    assert px * ((0 - px) * (0 - px)) == b && 0 * ((0 - px) * (0 - px)) == 0;
    CongMul(y, py * (0 - b), y, py * (0 - b), p);
    CongRefl(b * b, p);
    CongMul(py * py, b, b * b, b * b, p);
    assert (py * (0 - b)) * (py * (0 - b)) == (py * py) * (b * b);
    CongTrans(y * y, (py * py) * (b * b), b * (b * b), p);
    CongMul(x, b, x, b, p);
    CongMul(x, b, x * x, b * b, p);
    CongSym(x * (x * x), b * (b * b), p);
    CongTrans(y * y, b * (b * b), x * (x * x), p);
  }
}
