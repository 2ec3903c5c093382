/** ecc_point_add and ecc_point_mult2: what the projective programs compute is what affine double-and-add computes, for
    all coordinates. */
module Shamir {
  import opened Arith
  import opened Field
  import opened CoZ
  import opened Cusp
  import opened CurveRep
  import opened AffinePoints
  import opened Scalars
  import opened PointMult

  // ----- addition -----

  /** (x, y) are the coordinates of v, or (0, 0) if there is no v. */
  ghost predicate Shown(p: int, x: int, y: int, v: Value)
    requires p > 0
  {
    && Reduced(p, x) && Reduced(p, y)
    && (if v.Void? then Origin(x, y) else Cong(x, v.at.x, p) && Cong(y, v.at.y, p))
  }

  /** ecc_point_add, for all coordinates: the chord sum, or (0, 0) for equal x. */
  method EccPointAdd(p: int, ax: int, ay: int, bx: int, yb: int) returns (x: int, y: int)
    requires IsField(p) && p % 2 == 1
    ensures Shown(p, x, y, Plus(p, Point(ax, ay), Point(bx, yb)))
  {
    CongRefl(bx - ax, p);
    var z := FSub(p, bx, ax);
    var cx, cy, dx, dy := XYcZAdd(p, ax, ay, bx, yb);
    var w := FInv(p, z);
    x, y := ApplyZ(p, dx, dy, w);
    ghost var v := Plus(p, Point(ax, ay), Point(bx, yb));
    if v.Pt? {
      SumUnscaled(p, Point(ax, ay), Point(bx, yb), v.at, cx, cy, dx, dy, z, w);
      CongTrans(x, dx * (w * w), v.at.x, p);
      CongTrans(y, dy * (w * w * w), v.at.y, p);
    } else {
      CongTrans(z, bx - ax, 0, p);
      ScaledByZero(p, dx, dy, x, y);
    }
  }

  lemma PointRep(p: int, a: Point)
    requires p > 0
    ensures Rep(p, a.x, a.y, 1, a)
  {
    assert 1 * 1 == 1 && a.x * 1 == a.x && a.y * 1 == a.y;
    CongRefl(a.x, p);
    CongRefl(a.y, p);
  }

  lemma SumUnscaled(p: int, a: Point, b: Point, s: Point, cx: int, cy: int, dx: int, dy: int, z: int, w: int)
    requires IsField(p) && Chord(p, a, b, s) && NonZero(p, b.x - a.x)
    requires Scaled(p, a.x, a.y, b.x, cx, cy) && Sum(p, a.x, a.y, b.x, b.y - a.y, dx, dy)
    requires Cong(z, b.x - a.x, p) && (NonZero(p, z) ==> Cong(z * w, 1, p))
    ensures Cong(dx * (w * w), s.x, p) && Cong(dy * (w * w * w), s.y, p)
  {
    var d := b.x - a.x;
    PointRep(p, a);
    PointRep(p, b);
    AddMeans(p, a.x, a.y, b.x, b.y, 1, cx, cy, dx, dy, a, b, s);
    assert 1 * d == d;
    NonZeroCong(p, z, d);
    CongTimes(z, d, w, p);
    CongSym(z * w, d * w, p);
    CongTrans(d * w, z * w, 1, p);
    assert d * w == w * d;
    Unscale(p, dx, dy, d, w, s);
  }

  lemma UnitZ(p: int)
    requires IsField(p)
    ensures NonZero(p, 1)
  {
    DivModUnique(1, p, 0, 1);
  }

  // ----- joint multiplication -----

  /** The table entry that two scalar bits select. */
  function Entry(ps: seq<Point>, s: bool, t: bool): (r: Point)
    requires |ps| == 3 && (s || t)
    ensures r in ps
  {
    if s then (if t then ps[2] else ps[0]) else ps[1]
  }

  ghost function TwiceOf(p: int, v: Value): Value
    requires IsField(p) && p % 2 == 1
  {
    if v.Void? then Void else Twice(p, v.at)
  }

  /** One iteration: double, and add the selected entry if there is one. */
  ghost function StepValue(p: int, ps: seq<Point>, v: Value, sb: bool, tb: bool): Value
    requires IsField(p) && p % 2 == 1 && |ps| == 3
  {
    var d := TwiceOf(p, v);
    if d.Void? || !(sb || tb) then d else Plus(p, Entry(ps, sb, tb), d.at)
  }

  /** Affine double-and-add over the bits from the top down to i. */
  ghost function JointValue(p: int, ps: seq<Point>, s: nat, t: nat, i: nat): Value
    requires IsField(p) && p % 2 == 1 && |ps| == 3 && (s > 0 || t > 0)
    decreases Max(NumBits(s), NumBits(t)) - i
  {
    if i + 1 >= Max(NumBits(s), NumBits(t)) then TopPick(s, t); TopValue(ps, s, t)
    else StepValue(p, ps, JointValue(p, ps, s, t, i + 1), Bit(s, i), Bit(t, i))
  }

  ghost function TopValue(ps: seq<Point>, s: nat, t: nat): Value
    requires |ps| == 3 && (s > 0 || t > 0)
  {
    TopPick(s, t);
    var n := Max(NumBits(s), NumBits(t));
    Pt(Entry(ps, Bit(s, n - 1), Bit(t, n - 1)))
  }

  /** The table G, P and their chord sum; (0, 0) stands for a sum that is none. */
  ghost function TableOf(p: int, g: Point, q: Point): (ps: seq<Point>)
    requires IsField(p)
    ensures |ps| == 3
  {
    var v := Plus(p, g, q);
    [g, q, if v.Void? then Point(0, 0) else v.at]
  }

  /** The registers hold v over z. */
  ghost predicate Holds(p: int, rx: int, ry: int, z: int, v: Value)
    requires p > 0
  {
    && Reduced(p, rx) && Reduced(p, ry) && Reduced(p, z)
    && (if v.Void? then z == 0 || Origin(rx, ry) else NonZero(p, z) && Rep(p, rx, ry, z, v.at))
  }

  /** ecc_point_double_jacobian on the running point. */
  method DoubleR(p: int, rx: int, ry: int, z: int, ghost v: Value) returns (x: int, y: int, z': int)
    requires IsField(p) && p % 2 == 1 && Holds(p, rx, ry, z, v)
    ensures Holds(p, x, y, z', TwiceOf(p, v)) && (TwiceOf(p, v).Void? ==> z' == 0)
  {
    ghost var h;
    x, y, z', h := DoubleJacobian(p, rx, ry, z);
    if v.Void? {
      if z != 0 { CongSmall(z', 0, p); }
    } else {
      ReducedNonZero(p, z);
      DoubledPoint(p, rx, ry, z, v.at, h, x, y, z');
    }
  }

  lemma DoubledPoint(p: int, rx: int, ry: int, z: int, a: Point, h: int, x: int, y: int, z': int)
    requires IsField(p) && p % 2 == 1 && NonZero(p, z) && Rep(p, rx, ry, z, a)
    requires Doubled(p, rx, ry, z, h, x, y, z') && Reduced(p, z')
    ensures Twice(p, a).Void? ==> z' == 0
    ensures Twice(p, a).Pt? ==> NonZero(p, z') && Rep(p, x, y, z', Twice(p, a).at)
  {
    if Cong(a.y, 0, p) {
      LevelTerm(p, a.y, z * z * z);
      CongTrans(ry, a.y * (z * z * z), 0, p);
      ReducedZero(p, z', ry, z);
    } else {
      DoubleMeans(p, rx, ry, z, h, x, y, z', a, Twice(p, a).at);
      DoubledZ(p, ry, z, z', a.y);
    }
  }

  /** The selected point scaled to the running z, and added. */
  method AddEntry(p: int, rx: int, ry: int, z: int, e: Point, ghost v: Value) returns (x: int, y: int, z': int)
    requires IsField(p) && p % 2 == 1 && Holds(p, rx, ry, z, v) && (v.Void? ==> z == 0)
    ensures Holds(p, x, y, z', if v.Void? then Void else Plus(p, e, v.at))
  {
    var tx, ty := ApplyZ(p, e.x, e.y, z);
    CongRefl(rx - tx, p);
    var tz := FSub(p, rx, tx);
    ghost var cx, cy;
    cx, cy, x, y := XYcZAdd(p, tx, ty, rx, ry);
    CongRefl(z, p);
    MulTo(p, z, tz, z, rx - tx);
    z' := FMul(p, z, tz);
    if v.Void? {
      CongSmall(z', 0, p);
    } else {
      AddedEntry(p, rx, ry, z, tx, ty, cx, cy, x, y, z', e, v.at);
    }
  }

  /** Over the same z, points have the same x exactly if their scaled x are the same. */
  lemma SameX(p: int, z: int, ax: int, bx: int, a: int, b: int)
    requires p > 0 && Cong(ax, a * (z * z), p) && Cong(bx, b * (z * z), p) && Cong(b - a, 0, p)
    ensures Cong(bx - ax, 0, p)
  {
    CongSub(bx, b * (z * z), ax, a * (z * z), p);
    assert b * (z * z) - a * (z * z) == (b - a) * (z * z);
    LevelTerm(p, b - a, z * z);
    CongTrans(bx - ax, (b - a) * (z * z), 0, p);
  }

  lemma DifferentX(p: int, a: int, b: int)
    requires p > 0 && !Cong(b - a, 0, p)
    ensures !Cong(a, b, p)
  {
    if Cong(a, b, p) {
      CongSym(a, b, p);
      CongRefl(a, p);
      CongSub(b, a, a, a, p);
    }
  }

  lemma AddedEntry(p: int, rx: int, ry: int, z: int, tx: int, ty: int, cx: int, cy: int, x: int, y: int, z': int,
                   e: Point, r: Point)
    requires IsField(p) && NonZero(p, z) && Rep(p, rx, ry, z, r) && Rep(p, tx, ty, z, e)
    requires Scaled(p, tx, ty, rx, cx, cy) && Sum(p, tx, ty, rx, ry - ty, x, y)
    requires Reduced(p, x) && Reduced(p, y) && Reduced(p, z') && Cong(z', z * (rx - tx), p)
    ensures Holds(p, x, y, z', Plus(p, e, r))
  {
    var v := Plus(p, e, r);
    if v.Pt? {
      DifferentX(p, e.x, r.x);
      NewZ(p, tx, rx, z, e.x, r.x);
      AddMeans(p, tx, ty, rx, ry, z, cx, cy, x, y, e, r, v.at);
      NonZeroCong(p, z', z * (rx - tx));
      CongSym(z', z * (rx - tx), p);
      RepCong(p, x, y, z * (rx - tx), z', v.at);
    } else {
      SameX(p, z, tx, rx, e.x, r.x);
      assert z * (rx - tx) == (rx - tx) * z;
      ReducedZero(p, z', rx - tx, z);
    }
  }

  /** One iteration: double, and add the selected table entry if there is one. */
  method Iterate(p: int, rx: int, ry: int, z: int, ps: seq<Point>, sb: bool, tb: bool, ghost v: Value)
      returns (rx': int, ry': int, z': int)
    requires IsField(p) && p % 2 == 1 && |ps| == 3 && Holds(p, rx, ry, z, v)
    ensures Holds(p, rx', ry', z', StepValue(p, ps, v, sb, tb))
  {
    rx', ry', z' := DoubleR(p, rx, ry, z, v);
    if sb || tb {
      var e := Entry(ps, sb, tb);
      rx', ry', z' := AddEntry(p, rx', ry', z', e, TwiceOf(p, v));
    }
  }

  /** The loop, bit by bit. */
  method JointLoop(p: int, ps: seq<Point>, s: nat, t: nat) returns (rx: int, ry: int, z: int)
    requires IsField(p) && p % 2 == 1 && |ps| == 3 && (s > 0 || t > 0)
    requires forall e :: e in ps ==> Reduced(p, e.x) && Reduced(p, e.y)
    ensures Holds(p, rx, ry, z, JointValue(p, ps, s, t, 0))
  {
    var n := Max(NumBits(s), NumBits(t));
    TopPick(s, t);
    var first := Entry(ps, Bit(s, n - 1), Bit(t, n - 1));
    rx, ry, z := first.x, first.y, 1;
    UnitZ(p);
    PointRep(p, first);
    var i := n - 1;
    while i > 0
      invariant 0 <= i <= n - 1
      invariant Holds(p, rx, ry, z, JointValue(p, ps, s, t, i))
    {
      i := i - 1;
      rx, ry, z := Iterate(p, rx, ry, z, ps, Bit(s, i), Bit(t, i), JointValue(p, ps, s, t, i + 1));
    }
  }

  /** ecc_point_mult2, for all coordinates and all scalars not both zero: what affine double-and-add gives, and (0, 0)
      as soon as that meets a division by zero. */
  method EccPointMult2(p: int, gx: int, gy: int, px: int, py: int, s: nat, t: nat) returns (x: int, y: int)
    requires IsField(p) && p % 2 == 1 && (s > 0 || t > 0)
    requires Reduced(p, gx) && Reduced(p, gy) && Reduced(p, px) && Reduced(p, py)
    ensures Shown(p, x, y, JointValue(p, TableOf(p, Point(gx, gy), Point(px, py)), s, t, 0))
  {
    var sx, sy := EccPointAdd(p, gx, gy, px, py);
    var ps := [Point(gx, gy), Point(px, py), Point(sx, sy)];
    TableMade(p, Point(gx, gy), Point(px, py), sx, sy);
    var rx, ry, z := JointLoop(p, ps, s, t);
    var w := FInv(p, z);
    x, y := ApplyZ(p, rx, ry, w);
    UnscaleValue(p, rx, ry, z, w, x, y, JointValue(p, ps, s, t, 0));
  }

  lemma TableMade(p: int, g: Point, q: Point, sx: int, sy: int)
    requires IsField(p) && Shown(p, sx, sy, Plus(p, g, q))
    ensures TableOf(p, g, q) == [g, q, Point(sx, sy)]
  {
    var v := Plus(p, g, q);
    if v.Pt? {
      CongSmall(sx, v.at.x, p);
      CongSmall(sy, v.at.y, p);
    }
  }

  /** The last inversion and scaling. */
  lemma UnscaleValue(p: int, rx: int, ry: int, z: int, w: int, x: int, y: int, v: Value)
    requires IsField(p) && Holds(p, rx, ry, z, v) && Reduced(p, x) && Reduced(p, y)
    requires (NonZero(p, z) ==> Cong(z * w, 1, p)) && (!NonZero(p, z) ==> w == 0)
    requires Cong(x, rx * (w * w), p) && Cong(y, ry * (w * w * w), p)
    ensures Shown(p, x, y, v)
  {
    ReducedNonZero(p, z);
    if v.Pt? {
      assert z * w == w * z;
      Unscale(p, rx, ry, z, w, v.at);
      CongTrans(x, rx * (w * w), v.at.x, p);
      CongTrans(y, ry * (w * w * w), v.at.y, p);
    } else if z == 0 {
      ScaledByZero(p, rx, ry, x, y);
    } else {
      CongSmall(x, 0, p);
      CongSmall(y, 0, p);
    }
  }
}
