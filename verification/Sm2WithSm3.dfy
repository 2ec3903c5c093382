/** SM2 signatures of lib/gm/source/SM2_sv.c with the SM3 of lib/gm/source/SM3.c. */
module Sm2WithSm3 {
  import opened Arith
  import opened Bytes
  import opened CoZ
  import opened Group
  import opened Sm2Sign
  import opened Sm3
  import opened Sm3Words
  import Sm2Reduce

  /** The curve parameters SM2_a, SM2_b, SM2_Gx and SM2_Gy, and the identification of SM2_compute_ZA. */
  const A: nat := 0xfffffffeffffffffffffffffffffffffffffffff00000000fffffffffffffffc
  const B: nat := 0x28e9fa9e9d9f5e344d5a9e4bcf6509a7f39789f515ab8f92ddbcbd414d940e93
  const GX: nat := 0x32c4ae2c1f1981195f9904466a39c9948fe30bbff2660be1715a4589334c74c7
  const GY: nat := 0xbc3736a2f4f6779c59bdcee36b692153d0a9877cc62a474002df32e52139f0a0
  const IDA: seq<nat> := [
    0x31, 0x32, 0x33, 0x34, 0x35, 0x36, 0x37, 0x38, 0x31, 0x32, 0x33, 0x34, 0x35, 0x36, 0x37, 0x38]

  /** The bytes before the public key: the length of the identification in bits, it, a, b and the base point. */
  function Params(): (b: seq<nat>)
    ensures |b| == 146
  {
    [0x00, 0x80] + IDA + BigEndian(A, WIDTH) + BigEndian(B, WIDTH) + BigEndian(GX, WIDTH)
    + BigEndian(GY, WIDTH)
  }

  /** The constants fit together: a is -3 modulo the prime of the curve and the base point is on it. */
  lemma BaseOnCurve()
    ensures A + 3 == Sm2Reduce.P && Cong(GY * GY, GX * GX * GX + A * GX + B, Sm2Reduce.P)
  {
  }

  /** z by position: the length of the identification in bits, the identification 1234567812345678, a, b, the base
      point, x and y. */
  ghost predicate KeyString(z: seq<nat>, px: seq<nat>, py: seq<nat>) {
    && |z| == 210 && z[0] == 0 && z[1] == 8 * 16 && (forall i :: 0 <= i < 16 ==> z[2 + i] == 0x31 + i % 8)
    && z[18..50] == BigEndian(A, 32) && z[50..82] == BigEndian(B, 32)
    && z[82..114] == BigEndian(GX, 32) && z[114..146] == BigEndian(GY, 32)
    && z[146..178] == px && z[178..210] == py
  }

  /** d is the digest of m by GM/T 0004-2012. */
  ghost predicate IsSm3(m: seq<nat>, d: seq<nat>) {
    IsDigestOf(Program(), InitialRegs(), m, BigEndian(8 * |m|, LENGTH), d)
  }

  /** The hash of the standard. */
  ghost function Sm3Of(m: seq<nat>): (d: seq<nat>)
    ensures IsSm3(m, d)
  {
    DigestOfAny(m);
    var d: seq<nat> :| IsSm3(m, d);
    d
  }

  lemma DigestOfAny(m: seq<nat>)
    ensures exists d: seq<nat> :: IsSm3(m, d)
  {
    var d := DigestExists(Program(), InitialRegs(), m, BigEndian(8 * |m|, LENGTH));
    assert IsSm3(m, d);
  }

  /** The curve hashes by the standard, and the parameters are those of the program. */
  ghost predicate Standard<T>(c: Curve<T>) {
    c.params == Params() && forall m: seq<nat> :: IsSm3(m, c.sm3(m))
  }

  /** Any curve can be given that hash and these parameters. */
  lemma StandardCurve<T(!new)>(c: Curve<T>)
    requires Valid(c)
    ensures var c' := c.(params := Params(), sm3 := (m: seq<nat>) => Sm3Of(m)); Valid(c') && Standard(c')
  {
    var c' := c.(params := Params(), sm3 := (m: seq<nat>) => Sm3Of(m));
    forall t: T ensures CoordinatesAt(c', t) { assert CoordinatesAt(c, t); }
  }

  lemma IsKeyString(px: seq<nat>, py: seq<nat>)
    requires |px| == |py| == WIDTH
    ensures KeyString(Params() + px + py, px, py)
  {
    Identification();
    Parts([0x00, 0x80], IDA, BigEndian(A, WIDTH), BigEndian(B, WIDTH), BigEndian(GX, WIDTH), BigEndian(GY, WIDTH), px,
          py);
  }

  lemma Identification()
    ensures |IDA| == 16 && forall i :: 0 <= i < 16 ==> IDA[i] == 0x31 + i % 8
  {
    assert IDA[..8] == [0x31, 0x32, 0x33, 0x34, 0x35, 0x36, 0x37, 0x38] == IDA[8..];
    forall i | 0 <= i < 16 ensures IDA[i] == 0x31 + i % 8 {
      if i < 8 { assert IDA[i] == IDA[..8][i]; } else { assert IDA[i] == IDA[8..][i - 8]; }
    }
  }

  lemma Parts(l: seq<nat>, id: seq<nat>, a: seq<nat>, b: seq<nat>, gx: seq<nat>, gy: seq<nat>, px: seq<nat>,
              py: seq<nat>)
    requires |l| == 2 && |id| == 16 && |a| == |b| == |gx| == |gy| == |px| == |py| == 32
    ensures var z := l + id + a + b + gx + gy + px + py;
      && |z| == 210 && z[0] == l[0] && z[1] == l[1] && (forall i :: 0 <= i < 16 ==> z[2 + i] == id[i])
      && z[18..50] == a && z[50..82] == b && z[82..114] == gx && z[114..146] == gy && z[146..178] == px
      && z[178..210] == py
  {
  }

  /** ZA is the hash of that string, */
  lemma KeyHashed<T>(c: Curve<T>, px: seq<nat>, py: seq<nat>)
    requires Standard(c) && |px| == |py| == WIDTH
    ensures exists z: seq<nat> :: KeyString(z, px, py) && IsSm3(z, PubKeyDigest(c, px, py))
  {
    IsKeyString(px, py);
    assert IsSm3(Params() + px + py, c.sm3(Params() + px + py));
  }

  /** and e is the number in the hash of ZA and the message after it. */
  lemma MessageHashed<T>(c: Curve<T>, px: seq<nat>, py: seq<nat>, message: seq<nat>, za: seq<nat>)
    requires Standard(c) && za == PubKeyDigest(c, px, py)
    ensures exists y: seq<nat>, d: seq<nat> ::
      && |y| == |za| + |message| && y[..|za|] == za && y[|za|..] == message
      && IsSm3(y, d) && Digest(c, px, py, message) == FromBytes(d)
  {
    var y := za + message;
    assert y[..|za|] == za && y[|za|..] == message;
    assert IsSm3(y, c.sm3(y));
  }

  /** SM3_256 on a message short enough for its length field. */
  method HashFor<T>(c: Curve<T>, m: seq<nat>) returns (d: seq<nat>)
    requires Standard(c) && 8 * |m| < WRAP
    ensures d == c.sm3(m) && |d| == 32
  {
    d := Hash(m);
    assert IsSm3(m, c.sm3(m));
    OneDigest(Program(), InitialRegs(), m, BigEndian(8 * |m|, LENGTH), d, c.sm3(m));
  }

  /** SM2_compute_ZA, and the hash of ZA and the message as a number. */
  method ComputeE<T>(c: Curve<T>, px: seq<nat>, py: seq<nat>, message: seq<nat>) returns (e: nat)
    requires Standard(c) && |px| == |py| == WIDTH && |message| <= 1024
    ensures e == Digest(c, px, py, message)
  {
    var za := HashFor(c, c.params + px + py);
    var hash := HashFor(c, za + message);
    e := FromBytes(hash);
  }

  /** SM2_Sign with its own hash, the nonce k being a parameter: as Sign with the hash of the standard. */
  method SignBytes<T(!new)>(c: Curve<T>, message: seq<nat>, key: seq<nat>, k: nat)
      returns (code: nat, rb: seq<nat>, sb: seq<nat>)
    requires Valid(c) && Standard(c) && |message| <= 1024
    requires 0 < FromBytes(key) && FromBytes(key) + 2 <= c.n && 0 < k < c.n
    ensures CoordinatesNat(c, Mul(c.g, k, c.base)) && CoordinatesNat(c, Mul(c.g, FromBytes(key), c.base))
    ensures Outcome(c, SigningDigest(c, FromBytes(key), message), FromBytes(key), k, code, FromBytes(rb), FromBytes(sb))
  {
    var d := FromBytes(key);
    AllCoordinates(c, Mul(c.g, d, c.base));
    var q := PubKey(c, d);
    var e := ComputeE(c, q.0, q.1, message);
    code, rb, sb := SignHashed(c, e, d, k);
  }

  /** SM2_Verify with its own hash: accepted exactly if the verification equation holds of the standard's digest. */
  method VerifyBytes<T(!new)>(c: Curve<T>, message: seq<nat>, px: seq<nat>, py: seq<nat>, rb: seq<nat>, sb: seq<nat>)
      returns (code: nat)
    requires Valid(c) && Standard(c) && |message| <= 1024 && |px| == |py| == WIDTH
    ensures Verdict(c, Digest(c, px, py, message), c.lift(Point(FromBytes(px), FromBytes(py))), FromBytes(rb),
      FromBytes(sb), code)
  {
    var e := ComputeE(c, px, py, message);
    code := VerifyHashed(c, e, c.lift(Point(FromBytes(px), FromBytes(py))), FromBytes(rb), FromBytes(sb));
  }

  /** SM2_SelfCheck with its own hash: a signature that was produced is accepted. */
  method SelfCheckBytes<T(!new)>(c: Curve<T>, message: seq<nat>, key: seq<nat>, k: nat) returns (code: nat)
    requires Valid(c) && Standard(c) && |message| <= 1024
    requires 0 < FromBytes(key) && FromBytes(key) + 2 <= c.n && 0 < k < c.n
    ensures CoordinatesNat(c, Mul(c.g, k, c.base)) && CoordinatesNat(c, Mul(c.g, FromBytes(key), c.base))
    ensures Checked(c, SigningDigest(c, FromBytes(key), message), FromBytes(key), k, code)
  {
    var d := FromBytes(key);
    assert CoordinatesAt(c, Mul(c.g, d, c.base));
    var q := PubKey(c, d);
    var rb, sb;
    code, rb, sb := SignBytes(c, message, key, k);
    ghost var e, r, s := SigningDigest(c, d, message), FromBytes(rb), FromBytes(sb);
    if code != 0 {
      StoppedCode(c, e, d, k, code, r, s);
      return;
    }
    PubKeyLifts(c, d);
    code := VerifyBytes(c, message, q.0, q.1, rb, sb);
    AcceptedCode(c, e, d, k, r, s, code);
  }
}
