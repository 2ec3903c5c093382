/** Arithmetic modulo p on reduced numbers: what the vli_mod_* calls of ecc.c compute. */
module Field {
  import opened Arith

  function FAdd(p: int, a: int, b: int): (r: int)
    requires p > 0
    ensures 0 <= r < p && Cong(r, a + b, p)
  {
    CongMod(a + b, p);
    (a + b) % p
  }

  function FSub(p: int, a: int, b: int): (r: int)
    requires p > 0
    ensures 0 <= r < p && Cong(r, a - b, p)
  {
    CongMod(a - b, p);
    (a - b) % p
  }

  function FMul(p: int, a: int, b: int): (r: int)
    requires p > 0
    ensures 0 <= r < p && Cong(r, a * b, p)
  {
    CongMod(a * b, p);
    (a * b) % p
  }

  ghost predicate HasInverse(p: int, a: int)
    requires p > 0
  {
    a % p != 0 ==> exists b: int :: Cong(a * b, 1, p)
  }

  /** The integers modulo p form a field: every nonzero residue has an inverse. */
  ghost predicate IsField(p: int) {
    p > 1 && forall a: int :: HasInverse(p, a)
  }

  lemma Invert(p: int, a: int) returns (i: int)
    requires IsField(p) && !Cong(a, 0, p)
    ensures Cong(a * i, 1, p)
  {
    assert HasInverse(p, a);
    CongIffMod(a, 0, p);
    i :| Cong(a * i, 1, p);
  }

  lemma AddTo(p: int, a: int, b: int, x: int, y: int)
    requires p > 0 && Cong(a, x, p) && Cong(b, y, p)
    ensures Cong(FAdd(p, a, b), x + y, p)
  {
    CongAdd(a, x, b, y, p);
    CongTrans(FAdd(p, a, b), a + b, x + y, p);
  }

  lemma SubTo(p: int, a: int, b: int, x: int, y: int)
    requires p > 0 && Cong(a, x, p) && Cong(b, y, p)
    ensures Cong(FSub(p, a, b), x - y, p)
  {
    CongSub(a, x, b, y, p);
    CongTrans(FSub(p, a, b), a - b, x - y, p);
  }

  lemma MulTo(p: int, a: int, b: int, x: int, y: int)
    requires p > 0 && Cong(a, x, p) && Cong(b, y, p)
    ensures Cong(FMul(p, a, b), x * y, p)
  {
    CongMul(a, x, b, y, p);
    CongTrans(FMul(p, a, b), a * b, x * y, p);
  }

  /** In a field a product is zero only if a factor is. */
  lemma NonzeroProduct(p: int, a: int, b: int)
    requires IsField(p) && !Cong(a, 0, p) && !Cong(b, 0, p)
    ensures !Cong(a * b, 0, p)
  {
    if Cong(a * b, 0, p) {
      var i := Invert(p, a);
      CongRefl(i, p);
      CongMul(a * b, 0, i, i, p);
      CongRefl(b, p);
      CongMul(a * i, 1, b, b, p);
      assert a * b * i == a * i * b && 1 * b == b && 0 * i == 0;
      CongSym(a * i * b, b, p);
      CongTrans(b, a * i * b, 0, p);
      assert false;
    }
  }

  /** A nonzero factor cancels. */
  lemma CancelFactor(p: int, a: int, b: int, c: int)
    requires IsField(p) && !Cong(c, 0, p) && Cong(a * c, b * c, p)
    ensures Cong(a, b, p)
  {
    var i := Invert(p, c);
    CongRefl(i, p);
    CongMul(a * c, b * c, i, i, p);
    Cancelled(p, a, c, i);
    Cancelled(p, b, c, i);
    CongSym(a * c * i, a, p);
    CongTrans(a, a * c * i, b * c * i, p);
    CongTrans(a, b * c * i, b, p);
  }

  lemma Cancelled(p: int, a: int, c: int, i: int)
    requires p > 0 && Cong(c * i, 1, p)
    ensures Cong(a * c * i, a, p)
  {
    CongRefl(a, p);
    CongMul(a, a, c * i, 1, p);
    assert a * (c * i) == a * c * i && a * 1 == a;
  }
}
