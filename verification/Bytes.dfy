/** Numbers as strings of bytes. */
module Bytes {
  import opened Arith
  import opened Collections

  /** The big-endian number in a byte string. */
  function FromBytes(s: seq<nat>): nat {
    if |s| == 0 then 0 else 256 * FromBytes(s[..|s| - 1]) + s[|s| - 1]
  }

  /** Big-endian bytes of a number. */
  function BigEndian(x: nat, n: nat): (b: seq<nat>)
    ensures |b| == n && Octets(b)
  {
    if n == 0 then [] else BigEndian(x / 256, n - 1) + [x % 256]
  }

  lemma {:induction false} BigEndianTells(x: nat, y: nat, n: nat, bound: nat)
    requires x < bound && y < bound && IsPower(bound, n) && BigEndian(x, n) == BigEndian(y, n)
    ensures x == y
    decreases n
  {
    if n > 0 {
      assert BigEndian(x, n)[n - 1] == BigEndian(y, n)[n - 1];
      assert BigEndian(x, n)[..n - 1] == BigEndian(x / 256, n - 1)
        && BigEndian(y, n)[..n - 1] == BigEndian(y / 256, n - 1);
      BigEndianTells(x / 256, y / 256, n - 1, bound / 256);
    }
  }

  ghost predicate IsPower(b: nat, n: nat) {
    if n == 0 then b == 1 else b % 256 == 0 && IsPower(b / 256, n - 1)
  }

  /** Leading zeros do not change a number. */
  lemma {:induction false} ShortNumber(x: nat, n: nat, m: nat)
    requires x < Pow(256, m)
    ensures BigEndian(x, n + m) == BigEndian(0, n) + BigEndian(x, m)
    decreases m
  {
    if m == 0 {
      assert x == 0 && BigEndian(0, n) + [] == BigEndian(0, n);
    } else {
      assert x / 256 < Pow(256, m - 1);
      ShortNumber(x / 256, n, m - 1);
      assert BigEndian(0, n) + BigEndian(x / 256, m - 1) + [x % 256] ==
        BigEndian(0, n) + (BigEndian(x / 256, m - 1) + [x % 256]);
    }
  }

  lemma {:induction false} ZeroBytes(n: nat)
    ensures BigEndian(0, n) == Zeros<nat>(0, n)
  {
    if n > 0 {
      ZeroBytes(n - 1);
      assert Zeros<nat>(0, n) == Zeros<nat>(0, n - 1) + [0];
    }
  }

  lemma {:induction false} Powers(n: nat)
    ensures IsPower(Pow(256, n), n)
  {
    if n > 0 {
      Powers(n - 1);
      DivModUnique(Pow(256, n), 256, Pow(256, n - 1), 0);
    }
  }

  ghost predicate Octets(b: seq<nat>) {
    forall k :: 0 <= k < |b| ==> b[k] < 256
  }

  lemma {:induction false} BytesRoundTrip(x: nat, k: nat)
    requires x < Pow(256, k)
    ensures FromBytes(BigEndian(x, k)) == x
  {
    if k > 0 {
      var s := BigEndian(x, k);
      assert s[..k - 1] == BigEndian(x / 256, k - 1);
      BytesRoundTrip(x / 256, k - 1);
    }
  }

  lemma {:induction false} NumberRoundTrip(b: seq<nat>)
    requires Octets(b)
    ensures BigEndian(FromBytes(b), |b|) == b
  {
    if |b| > 0 {
      NumberRoundTrip(b[..|b| - 1]);
      DivModUnique(FromBytes(b), 256, FromBytes(b[..|b| - 1]), b[|b| - 1]);
    }
  }

  lemma {:induction false} BytesBound(b: seq<nat>)
    requires Octets(b)
    ensures FromBytes(b) < Pow(256, |b|)
  {
    if |b| > 0 { BytesBound(b[..|b| - 1]); }
  }

  /** The same in the order of a little-endian memory. */
  function LittleEndian(x: nat, n: nat): (b: seq<nat>)
    ensures |b| == n && Octets(b)
  {
    Reversed(BigEndian(x, n))
  }

  function FromLittle(b: seq<nat>): nat {
    FromBytes(Reversed(b))
  }

  lemma ReversedTwice(b: seq<nat>)
    ensures Reversed(Reversed(b)) == b
  {
  }
}
