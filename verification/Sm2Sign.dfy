/** SM2 signatures of lib/gm/source/SM2_sv.c over any group of prime order n. */
module Sm2Sign {
  import opened Arith
  import opened Bytes
  import opened Collections
  import opened Field
  import opened CoZ
  import opened Group
  import opened PointMult

  /** Bytes in a coordinate or scalar: SM2_NUMWORD. */
  const WIDTH: nat := 32

  const ERR_GENERATE_R: nat := 6
  const ERR_GENERATE_S: nat := 7
  const ERR_OUTRANGE_R: nat := 8
  const ERR_OUTRANGE_S: nat := 9
  const ERR_GENERATE_T: nat := 10
  const ERR_PUBKEY_INIT: nat := 11
  const ERR_DATA_MEMCMP: nat := 12

  /** The group with its base point, order, coordinates, the points epoint_set accepts, the hash
      and the fixed bytes hashed before a public key. */
  datatype Curve<!T> = Curve(g: Ops<T>, base: T, n: nat, xy: T -> Point, lift: Point -> Option<T>,
                             sm3: seq<nat> -> seq<nat>, params: seq<nat>)

  ghost predicate CoordinatesAt<T(!new)>(c: Curve<T>, t: T) {
    0 <= c.xy(t).x < Pow(256, WIDTH) && 0 <= c.xy(t).y < Pow(256, WIDTH)
    && (t != c.g.zero ==> c.lift(c.xy(t)) == Some(t))
  }

  /** What SM2_Init establishes, and what the SM2 parameters are: a base point of prime order n below
      2^256, and coordinates of 32 bytes from which epoint_set recovers the point. */
  ghost predicate Valid<T(!new)>(c: Curve<T>) {
    && Abelian(c.g) && IsField(c.n) && 3 < c.n < Pow(256, WIDTH)
    && HasOrder(c.g, c.base, c.n)
    && (forall t: T :: CoordinatesAt(c, t))
  }

  /** The public-key digest ZA. */
  function PubKeyDigest<T>(c: Curve<T>, px: seq<nat>, py: seq<nat>): seq<nat> {
    c.sm3(c.params + px + py)
  }

  /** e = H(ZA || M) as a number. */
  function Digest<T>(c: Curve<T>, px: seq<nat>, py: seq<nat>, message: seq<nat>): nat {
    FromBytes(c.sm3(PubKeyDigest(c, px, py) + message))
  }

  /** [d]G in bytes: SM2_make_pubkey. */
  function PubKey<T>(c: Curve<T>, d: nat): (r: (seq<nat>, seq<nat>))
    requires CoordinatesNat(c, Mul(c.g, d, c.base))
  {
    var p := c.xy(Mul(c.g, d, c.base));
    (BigEndian(p.x, WIDTH), BigEndian(p.y, WIDTH))
  }

  predicate CoordinatesNat<T>(c: Curve<T>, t: T) {
    c.xy(t).x >= 0 && c.xy(t).y >= 0
  }

  /** The signing equations (section 6.1 of GM/T 0003.2-2012) for digest e, key d and nonce k. */
  ghost predicate IsSignature<T(!new)>(c: Curve<T>, e: nat, d: nat, k: nat, r: nat, s: nat)
    requires c.n > 0
  {
    && 0 < r < c.n && 0 < s < c.n && r + k != c.n
    && Cong(r, e + c.xy(Mul(c.g, k, c.base)).x, c.n)
    && Cong(s * (1 + d), k - r * d, c.n)
  }

  /** The verification equations (section 7.1 of GM/T 0003.2-2012) for digest e and public key q. */
  ghost predicate Accepts<T(!new)>(c: Curve<T>, e: nat, q: T, r: nat, s: nat)
    requires c.n > 0
  {
    && 0 < r < c.n && 0 < s < c.n && (r + s) % c.n != 0
    && Cong(r, e + c.xy(c.g.add(Mul(c.g, s, c.base), Mul(c.g, (r + s) % c.n, q))).x, c.n)
  }

  /** s + t d is k modulo n: the scalar identity behind verification. */
  lemma ScalarIdentity(n: nat, d: nat, k: nat, r: nat, s: nat, t: nat)
    requires n > 0 && t == (r + s) % n && Cong(s * (1 + d), k - r * d, n)
    ensures Cong(s + t * d, k, n)
  {
    CongMod(r + s, n);
    CongRefl(d, n);
    CongMul(t, r + s, d, d, n);
    CongRefl(s, n);
    CongAdd(s, s, t * d, (r + s) * d, n);
    CongRefl(r * d, n);
    CongAdd(s * (1 + d), k - r * d, r * d, r * d, n);
    assert s * (1 + d) + r * d == s + (r + s) * d;
    CongTrans(s + t * d, s + (r + s) * d, k, n);
  }

  lemma ZeroTGivesN(n: nat, k: nat, r: nat, s: nat)
    requires n > 0 && 0 < k < n && 0 < r < n && Cong(r + s, 0, n) && Cong(s, k, n)
    ensures r + k == n
  {
    CongRefl(r, n);
    CongAdd(r, r, s, k, n);
    CongSym(r + s, r + k, n);
    CongTrans(r + k, r + s, 0, n);
    SmallMultiple(r + k, n);
  }

  lemma NGivesZeroT(n: nat, d: nat, k: nat, r: nat, s: nat)
    requires IsField(n) && 0 < d && d + 1 < n && r + k == n
    requires Cong(s * (1 + d), k - r * d, n)
    ensures Cong(r + s, 0, n)
  {
    var m: int, r': int := 1 + d, 0 - r;
    assert k - r * d == r' * m + n;
    CongIntro(k - r * d, r' * m, n, 1);
    CongTrans(s * m, k - r * d, r' * m, n);
    DivModUnique(m, n, 0, m);
    CancelFactor(n, s, r', m);
    CongRefl(r, n);
    CongAdd(r, r, s, r', n);
  }

  /** The check r + k != n when signing is exactly the check t != 0 when verifying. */
  lemma NonceCheckIsTCheck(n: nat, d: nat, k: nat, r: nat, s: nat)
    requires IsField(n) && 0 < d && d + 1 < n && 0 < k < n && 0 < r < n
    requires Cong(s * (1 + d), k - r * d, n)
    ensures (r + s) % n == 0 <==> r + k == n
  {
    var t := (r + s) % n;
    CongIffMod(r + s, 0, n);
    if t == 0 {
      ScalarIdentity(n, d, k, r, s, t);
      ZeroTGivesN(n, k, r, s);
    }
    if r + k == n {
      NGivesZeroT(n, d, k, r, s);
    }
  }

  lemma SmallMultiple(x: nat, n: nat)
    requires n > 0 && Cong(x, 0, n) && 0 < x < 2 * n
    ensures x == n
  {
    var q := CongElim(x, 0, n);
    if q >= 2 { MulMono(n, 2, q); assert false; }
    if q <= 0 { MulMono(n, q, 0); assert false; }
  }

  lemma CombinedPoint<T(!new)>(g: Ops<T>, a: T, n: nat, d: nat, k: nat, s: nat, t: nat)
    requires Abelian(g) && HasOrder(g, a, n) && Cong(s + t * d, k, n)
    ensures g.add(Mul(g, s, a), Mul(g, t, Mul(g, d, a))) == Mul(g, k, a)
  {
    MulMul(g, t, d, a);
    SameMultiple(g, a, n, s, t * d, k);
  }

  lemma SameMultiple<T(!new)>(g: Ops<T>, a: T, n: nat, s: nat, m: nat, k: nat)
    requires Abelian(g) && HasOrder(g, a, n) && Cong(s + m, k, n)
    ensures g.add(Mul(g, s, a), Mul(g, m, a)) == Mul(g, k, a)
  {
    MulAdd(g, s, m, a);
    CongMultiple(g, a, n, s + m, k);
  }

  lemma CongMultiple<T(!new)>(g: Ops<T>, a: T, n: nat, j: nat, k: nat)
    requires Abelian(g) && HasOrder(g, a, n) && Cong(j, k, n)
    ensures Mul(g, j, a) == Mul(g, k, a)
  {
    CongIffMod(j, k, n);
    MulEqual(g, a, n, j, k);
  }

  /** Every signature is accepted with the public key of its signing key. */
  lemma SignatureAccepted<T(!new)>(c: Curve<T>, e: nat, d: nat, k: nat, r: nat, s: nat)
    requires Valid(c) && 0 < d && d + 2 <= c.n && 0 < k < c.n
    requires IsSignature(c, e, d, k, r, s)
    ensures Accepts(c, e, Mul(c.g, d, c.base), r, s)
  {
    var t := (r + s) % c.n;
    NonceCheckIsTCheck(c.n, d, k, r, s);
    ScalarIdentity(c.n, d, k, r, s, t);
    CombinedPoint(c.g, c.base, c.n, d, k, s, t);
  }

  /** The inverse modulo n that xgcd leaves in its first operand. */
  method Inverse(n: nat, a: nat) returns (b: nat)
    requires IsField(n) && 0 < a < n
    ensures b < n && Cong(a * b, 1, n)
  {
    DivModUnique(a, n, 0, a);
    var i := FInv(n, a);
    b := i;
  }

  /** The digest that signing with key d hashes. */
  function SigningDigest<T>(c: Curve<T>, d: nat, message: seq<nat>): nat
    requires CoordinatesNat(c, Mul(c.g, d, c.base))
  {
    var q := PubKey(c, d);
    Digest(c, q.0, q.1, message)
  }

  /** r for digest e and nonce k. */
  function NonceR<T>(c: Curve<T>, e: nat, k: nat): nat
    requires c.n > 0 && CoordinatesNat(c, Mul(c.g, k, c.base))
  {
    (e + c.xy(Mul(c.g, k, c.base)).x) % c.n
  }

  lemma AllCoordinates<T(!new)>(c: Curve<T>, t: T)
    requires Valid(c)
    ensures CoordinatesNat(c, t)
  {
    assert CoordinatesAt(c, t);
  }

  /** What signing digest e with key d and nonce k returns: a signature, the code for r exactly if r is zero or r + k is
      n, or the code for s exactly if otherwise s would be zero. */
  ghost predicate Outcome<T(!new)>(c: Curve<T>, e: nat, d: nat, k: nat, code: nat, r: nat, s: nat)
    requires c.n > 0 && CoordinatesNat(c, Mul(c.g, k, c.base))
  {
    && (code == 0 || code == ERR_GENERATE_R || code == ERR_GENERATE_S) && (code == 0 ==> IsSignature(c, e, d, k, r, s))
    && (code == ERR_GENERATE_R <==> NonceR(c, e, k) == 0 || NonceR(c, e, k) + k == c.n)
    && (code == ERR_GENERATE_S <==>
          NonceR(c, e, k) != 0 && NonceR(c, e, k) + k != c.n && Cong(k - NonceR(c, e, k) * d, 0, c.n))
  }

  /** SM2_Sign with the nonce k as a parameter: every outcome, and the signing equations for outcome 0. */
  method Sign<T(!new)>(c: Curve<T>, message: seq<nat>, key: seq<nat>, k: nat)
      returns (code: nat, rb: seq<nat>, sb: seq<nat>)
    requires Valid(c) && |message| <= 1024
    requires 0 < FromBytes(key) && FromBytes(key) + 2 <= c.n && 0 < k < c.n
    ensures CoordinatesNat(c, Mul(c.g, k, c.base)) && CoordinatesNat(c, Mul(c.g, FromBytes(key), c.base))
    ensures Outcome(c, SigningDigest(c, FromBytes(key), message), FromBytes(key), k, code, FromBytes(rb), FromBytes(sb))
  {
    var dA := FromBytes(key);
    AllCoordinates(c, Mul(c.g, dA, c.base));
    code, rb, sb := SignHashed(c, SigningDigest(c, dA, message), dA, k);
  }

  /** Signing from the hash on. */
  method SignHashed<T(!new)>(c: Curve<T>, e: nat, d: nat, k: nat) returns (code: nat, rb: seq<nat>, sb: seq<nat>)
    requires Valid(c) && 0 < d && d + 2 <= c.n && 0 < k < c.n
    ensures CoordinatesNat(c, Mul(c.g, k, c.base)) && Outcome(c, e, d, k, code, FromBytes(rb), FromBytes(sb))
  {
    var r, s;
    code, r, s := SignDigest(c, e, d, k);
    rb, sb := [], [];
    if code == 0 {
      rb, sb := BigEndian(r, WIDTH), BigEndian(s, WIDTH);
      BytesRoundTrip(r, WIDTH);
      BytesRoundTrip(s, WIDTH);
    }
  }

  /** Steps 4 to 6: signing a digest. */
  method SignDigest<T(!new)>(c: Curve<T>, e: nat, d: nat, k: nat) returns (code: nat, r: nat, s: nat)
    requires Valid(c) && 0 < d && d + 2 <= c.n && 0 < k < c.n
    ensures CoordinatesNat(c, Mul(c.g, k, c.base)) && Outcome(c, e, d, k, code, r, s)
    ensures code == 0 ==> r < c.n && s < c.n
  {
    AllCoordinates(c, Mul(c.g, k, c.base));
    r := NonceR(c, e, k);
    CongMod(e + c.xy(Mul(c.g, k, c.base)).x, c.n);
    code, s := SignScalars(c.n, d, k, r);
  }

  /** The two checks of signing, and s between them. */
  method SignScalars(n: nat, d: nat, k: nat, r: nat) returns (code: nat, s: nat)
    requires IsField(n) && 0 < d && d + 2 <= n && 0 < k < n && r < n
    ensures code == 0 || code == ERR_GENERATE_R || code == ERR_GENERATE_S
    ensures code == ERR_GENERATE_R <==> r == 0 || r + k == n
    ensures code == ERR_GENERATE_S <==> r != 0 && r + k != n && Cong(k - r * d, 0, n)
    ensures code == 0 ==> 0 < s < n && Cong(s * (1 + d), k - r * d, n)
  {
    var rk := r + k;
    s := 0;
    if r == 0 || rk == n {
      return ERR_GENERATE_R, s;
    }
    s := SolveS(n, d, k, r);
    code := if s == 0 then ERR_GENERATE_S else 0;
  }

  /** Step 6: s = (1 + d)^-1 (k - r d) modulo n. */
  method SolveS(n: nat, d: nat, k: nat, r: nat) returns (s: nat)
    requires IsField(n) && 0 < d && d + 2 <= n && 0 < k < n
    ensures s < n && Cong(s * (1 + d), k - r * d, n)
    ensures s == 0 <==> Cong(k - r * d, 0, n)
  {
    var z1 := Inverse(n, d + 1);
    var z2: int := (r * d) % n;
    ghost var rd := z2;
    CongMod(r * d, n);
    z2 := k - z2;
    z2 := z2 + n;
    s := (z1 * z2) % n;
    SolvesS(n, d, k, r, z1, rd, s);
    ZeroSolution(n, d, s, k - r * d);
  }

  /** In a field s (1 + d) is zero only if s is. */
  lemma ZeroSolution(n: nat, d: nat, s: nat, x: int)
    requires IsField(n) && d + 2 <= n && s < n && Cong(s * (1 + d), x, n)
    ensures s == 0 <==> Cong(x, 0, n)
  {
    var m: int := 1 + d;
    CongSym(s * m, x, n);
    if Cong(x, 0, n) {
      CongTrans(s * m, x, 0, n);
      DivModUnique(m, n, 0, m);
      assert 0 * m == 0;
      CancelFactor(n, s, 0, m);
      CongSmall(s, 0, n);
    }
  }

  lemma SolvesS(n: nat, d: nat, k: nat, r: nat, z1: nat, rd: int, s: nat)
    requires n > 0 && Cong((d + 1) * z1, 1, n) && Cong(rd, r * d, n) && s == (z1 * (k - rd + n)) % n
    ensures Cong(s * (1 + d), k - r * d, n)
  {
    var z2 := k - rd + n;
    CongMod(z1 * z2, n);
    CongRefl(1 + d, n);
    CongMul(s, z1 * z2, 1 + d, 1 + d, n);
    CongRefl(z2, n);
    CongMul((d + 1) * z1, 1, z2, z2, n);
    assert (z1 * z2) * (1 + d) == ((d + 1) * z1) * z2 && 1 * z2 == z2;
    CongTrans(s * (1 + d), ((d + 1) * z1) * z2, z2, n);
    SolvesZ(n, k, r * d, rd, z2);
    CongTrans(s * (1 + d), z2, k - r * d, n);
  }

  lemma SolvesZ(n: nat, k: nat, x: int, rd: int, z2: int)
    requires n > 0 && Cong(rd, x, n) && z2 == k - rd + n
    ensures Cong(z2, k - x, n)
  {
    CongRefl(k, n);
    CongSub(k, k, rd, x, n);
    CongIntro(z2, k - rd, n, 1);
    CongTrans(z2, k - rd, k - x, n);
  }

  /** Test_Range: x lies in [1, n - 1]. */
  predicate InRange(n: nat, x: nat) {
    !(x < 1 || x > n - 1)
  }

  /** What verifying r and s returns for digest e and the point q that the public key stands for, if any. */
  ghost predicate Verdict<T(!new)>(c: Curve<T>, e: nat, q: Option<T>, r: nat, s: nat, code: nat)
    requires c.n > 0
  {
    && (code == 0 <==> q.Some? && Accepts(c, e, q.value, r, s))
    && (code == ERR_PUBKEY_INIT <==> q.None?)
    && (code == ERR_OUTRANGE_R <==> q.Some? && !InRange(c.n, r))
    && (code == ERR_OUTRANGE_S <==> q.Some? && InRange(c.n, r) && !InRange(c.n, s))
    && (code == ERR_GENERATE_T <==> q.Some? && InRange(c.n, r) && InRange(c.n, s) && (r + s) % c.n == 0)
    && (code == ERR_DATA_MEMCMP <==>
          q.Some? && InRange(c.n, r) && InRange(c.n, s) && (r + s) % c.n != 0 && !Accepts(c, e, q.value, r, s))
  }

  /** SM2_Verify. */
  method Verify<T(!new)>(c: Curve<T>, message: seq<nat>, px: seq<nat>, py: seq<nat>, rb: seq<nat>, sb: seq<nat>)
      returns (code: nat)
    requires Valid(c) && |message| <= 1024
    ensures Verdict(c, Digest(c, px, py, message), c.lift(Point(FromBytes(px), FromBytes(py))), FromBytes(rb),
      FromBytes(sb), code)
  {
    var q := c.lift(Point(FromBytes(px), FromBytes(py)));
    code := VerifyHashed(c, Digest(c, px, py, message), q, FromBytes(rb), FromBytes(sb));
  }

  /** Verifying a digest. */
  method VerifyHashed<T(!new)>(c: Curve<T>, e: nat, point: Option<T>, r: nat, s: nat) returns (code: nat)
    requires Valid(c)
    ensures Verdict(c, e, point, r, s, code)
  {
    if point.None? {
      return ERR_PUBKEY_INIT;
    }
    if !InRange(c.n, r) {
      return ERR_OUTRANGE_R;
    }
    if !InRange(c.n, s) {
      return ERR_OUTRANGE_S;
    }
    var t := (r + s) % c.n;
    if t == 0 {
      return ERR_GENERATE_T;
    }
    var sum := c.g.add(Mul(c.g, s, c.base), Mul(c.g, t, point.value));
    assert CoordinatesAt(c, sum);
    var rr := (e + c.xy(sum).x) % c.n;
    CongIffMod(r, e + c.xy(sum).x, c.n);
    DivModUnique(r, c.n, 0, r);
    code := if rr == r then 0 else ERR_DATA_MEMCMP;
  }

  /** What the self check returns for digest e, key d and nonce k: the code for r or for s exactly where signing stops
      with it, and 0 in all other cases, since what was signed is accepted. */
  ghost predicate Checked<T(!new)>(c: Curve<T>, e: nat, d: nat, k: nat, code: nat)
    requires c.n > 0 && CoordinatesNat(c, Mul(c.g, k, c.base))
  {
    var r := (e + c.xy(Mul(c.g, k, c.base)).x) % c.n;
    code == if r == 0 || r + k == c.n then ERR_GENERATE_R
            else if Cong(k - r * d, 0, c.n) then ERR_GENERATE_S
            else 0
  }

  lemma StoppedCode<T(!new)>(c: Curve<T>, e: nat, d: nat, k: nat, code: nat, r: nat, s: nat)
    requires c.n > 0 && CoordinatesNat(c, Mul(c.g, k, c.base)) && Outcome(c, e, d, k, code, r, s) && code != 0
    ensures Checked(c, e, d, k, code)
  {
  }

  lemma AcceptedCode<T(!new)>(c: Curve<T>, e: nat, d: nat, k: nat, r: nat, s: nat, code: nat)
    requires Valid(c) && 0 < d && d + 2 <= c.n && 0 < k < c.n && CoordinatesNat(c, Mul(c.g, k, c.base))
    requires Outcome(c, e, d, k, 0, r, s) && Verdict(c, e, Some(Mul(c.g, d, c.base)), r, s, code)
    ensures Checked(c, e, d, k, code)
  {
    SignatureAccepted(c, e, d, k, r, s);
  }

  /** SM2_SelfCheck: whatever the key, nonce and message, a signature that was produced is accepted. */
  method SelfCheck<T(!new)>(c: Curve<T>, message: seq<nat>, key: seq<nat>, k: nat) returns (code: nat)
    requires Valid(c) && |message| <= 1024
    requires 0 < FromBytes(key) && FromBytes(key) + 2 <= c.n && 0 < k < c.n
    ensures CoordinatesNat(c, Mul(c.g, k, c.base)) && CoordinatesNat(c, Mul(c.g, FromBytes(key), c.base))
    ensures Checked(c, SigningDigest(c, FromBytes(key), message), FromBytes(key), k, code)
  {
    var d := FromBytes(key);
    assert CoordinatesAt(c, Mul(c.g, d, c.base));
    var q := PubKey(c, d);
    var rb, sb;
    code, rb, sb := Sign(c, message, key, k);
    ghost var e, r, s := SigningDigest(c, d, message), FromBytes(rb), FromBytes(sb);
    if code != 0 {
      StoppedCode(c, e, d, k, code, r, s);
      return;
    }
    PubKeyLifts(c, d);
    code := Verify(c, message, q.0, q.1, rb, sb);
    AcceptedCode(c, e, d, k, r, s, code);
  }

  lemma PubKeyLifts<T(!new)>(c: Curve<T>, d: nat)
    requires Valid(c) && 0 < d < c.n
    ensures CoordinatesNat(c, Mul(c.g, d, c.base))
    ensures var q := PubKey(c, d); c.lift(Point(FromBytes(q.0), FromBytes(q.1))) == Some(Mul(c.g, d, c.base))
  {
    var t := Mul(c.g, d, c.base);
    assert CoordinatesAt(c, t);
    BytesRoundTrip(c.xy(t).x, WIDTH);
    BytesRoundTrip(c.xy(t).y, WIDTH);
  }
}
