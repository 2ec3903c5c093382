/** The fast reduction modulo the SM2 prime: vli_mmod_fast_sm2_256, on 32-bit digits. */
module Sm2Reduce {
  import opened Arith
  import opened Limbs
  import opened Vli
  import opened ModArith

  /** The SM2 prime 2^256 - 2^224 - 2^96 + 2^64 - 1. */
  const P: nat := 0xfffffffe_ffffffff_ffffffff_ffffffff_ffffffff_00000000_ffffffff_ffffffff

  const B2: nat := 0x1_00000000_00000000
  const B3: nat := 0x1_00000000_00000000_00000000
  const B4: nat := 0x1_00000000_00000000_00000000_00000000
  const B5: nat := 0x1_00000000_00000000_00000000_00000000_00000000
  const B6: nat := 0x1_00000000_00000000_00000000_00000000_00000000_00000000
  const B7: nat := 0x1_00000000_00000000_00000000_00000000_00000000_00000000_00000000
  const B8: nat := 0x1_00000000_00000000_00000000_00000000_00000000_00000000_00000000_00000000

  lemma Powers()
    ensures Pow(W32, 0) == 1 && Pow(W32, 1) == W32 && Pow(W32, 2) == B2 && Pow(W32, 3) == B3 && Pow(W32, 4) == B4
    ensures Pow(W32, 5) == B5 && Pow(W32, 6) == B6 && Pow(W32, 7) == B7 && Pow(W32, 8) == B8
  {
    assert Pow(W32, 1) == W32 * Pow(W32, 0);
    assert Pow(W32, 2) == W32 * Pow(W32, 1);
    assert Pow(W32, 3) == W32 * Pow(W32, 2);
    assert Pow(W32, 4) == W32 * Pow(W32, 3);
    assert Pow(W32, 5) == W32 * Pow(W32, 4);
    assert Pow(W32, 6) == W32 * Pow(W32, 5);
    assert Pow(W32, 7) == W32 * Pow(W32, 6);
    assert Pow(W32, 8) == W32 * Pow(W32, 7);
  }

  /** Eight digits as a number. */
  function Octet(s: seq<nat>): nat
    requires |s| == 8
  {
    s[0] + s[1] * W32 + s[2] * B2 + s[3] * B3 + s[4] * B4 + s[5] * B5 + s[6] * B6 + s[7] * B7
  }

  lemma SegOctet(s: seq<nat>, lo: nat)
    requires lo + 8 <= |s|
    ensures Seg(s, lo, 8, W32) == Octet(s[lo..lo + 8])
  {
    Powers();
    SegStep(s, lo, 1);
    SegStep(s, lo, 2);
    SegStep(s, lo, 3);
    SegStep(s, lo, 4);
    SegStep(s, lo, 5);
    SegStep(s, lo, 6);
    SegStep(s, lo, 7);
    SegStep(s, lo, 8);
  }

  lemma SegStep(s: seq<nat>, lo: nat, n: nat)
    requires 0 < n && lo + n <= |s|
    ensures Seg(s, lo, n, W32) == Seg(s, lo, n - 1, W32) + s[lo + n - 1] * Pow(W32, n - 1)
  {
  }

  /** The number held by result and a signed carry above it. */
  ghost function Total(result: seq<nat>, carry: int): int
    requires |result| == 8
  {
    Octet(result) + carry * B8
  }

  /** An array of eight 32-bit digits. */
  ghost predicate Eight(a: array<nat>)
    reads a
  {
    a.Length == 8 && Digits(a[..], W32)
  }

  /** carry += vli_add(result, result, tmp). */
  method AddIn(result: array<nat>, tmp: array<nat>, carry: int, ghost v: seq<nat>) returns (c: int)
    requires Eight(result) && Eight(tmp) && result != tmp && tmp[..] == v
    modifies result
    ensures Eight(result) && Total(result[..], c) == old(Total(result[..], carry)) + Octet(v)
  {
    Powers();
    WholeOctet(result[..]);
    WholeOctet(tmp[..]);
    var out := Add(W32, result, result, tmp, 8);
    WholeOctet(result[..]);
    c := carry + out;
  }

  /** carry -= vli_sub(result, result, tmp). */
  method SubOut(result: array<nat>, tmp: array<nat>, carry: int, ghost v: seq<nat>) returns (c: int)
    requires Eight(result) && Eight(tmp) && result != tmp && tmp[..] == v
    modifies result
    ensures Eight(result) && Total(result[..], c) == old(Total(result[..], carry)) - Octet(v)
  {
    Powers();
    WholeOctet(result[..]);
    WholeOctet(tmp[..]);
    var out := Sub(W32, result, result, 0, tmp, 8);
    WholeOctet(result[..]);
    c := carry - out;
  }

  lemma WholeOctet(s: seq<nat>)
    requires |s| == 8
    ensures Seg(s, 0, 8, W32) == Octet(s)
  {
    SegOctet(s, 0);
    assert s[0..8] == s;
  }

  const C0: int := 0x1_00000000_00000000_00000000_00000000_ffffffff_00000000_00000001
  const C1: int := 0x1_00000000_00000000_00000000_ffffffff_ffffffff_00000001_00000001
  const C2: int := 0x1_00000000_00000001_00000000_00000000_00000000_00000001_00000001
  const C3: int := 0x1_00000001_00000000_00000000_00000001_00000000_00000001_00000001
  const C4: int := 0x2_00000000_00000000_00000001_00000001_00000000_00000001_00000001
  const C5: int := 0x2_00000000_00000001_00000001_00000001_ffffffff_00000001_00000002
  const C6: int := 0x2_00000001_00000001_00000002_00000000_ffffffff_00000002_00000002
  const C7: int := 0x3_00000001_00000002_00000001_00000001_00000000_00000002_00000002

  /** Digit 8 folded in: B^8 is congruent to C0. */
  method Y0(result: array<nat>, tmp1: array<nat>, tmp2: array<nat>, w: nat, carry: int) returns (c: int)
    requires Eight(result) && Eight(tmp1) && Eight(tmp2) && w < W32
    requires result != tmp1 && result != tmp2 && tmp1 != tmp2
    requires tmp1[1] == tmp1[2] == tmp1[4] == tmp1[5] == tmp1[6] == 0
    requires tmp2[0] == tmp2[1] == tmp2[3] == tmp2[4] == tmp2[5] == tmp2[6] == tmp2[7] == 0
    modifies result, tmp1, tmp2
    ensures Eight(result) && Eight(tmp1) && Eight(tmp2)
    ensures tmp1[..] == [w, 0, 0, w, 0, 0, 0, w]
    ensures tmp2[..] == [0, 0, w, 0, 0, 0, 0, 0]
    ensures Total(result[..], c) == old(Total(result[..], carry)) + w * C0
  {
    tmp1[0], tmp1[3], tmp1[7] := w, w, w;
    tmp2[2] := w;
    ghost var v1: seq<nat> := [w, 0, 0, w, 0, 0, 0, w];
    ghost var v2: seq<nat> := [0, 0, w, 0, 0, 0, 0, 0];
    c := AddIn(result, tmp1, carry, v1);
    c := SubOut(result, tmp2, c, v2);
    Coefficients0(w);
  }

  /** Digit 9 folded in: B^9 is congruent to C1. */
  method Y1(result: array<nat>, tmp1: array<nat>, tmp2: array<nat>, w: nat, carry: int) returns (c: int)
    requires Eight(result) && Eight(tmp1) && Eight(tmp2) && w < W32
    requires result != tmp1 && result != tmp2 && tmp1 != tmp2
    requires tmp1[2] == tmp1[5] == tmp1[6] == 0
    requires tmp2[0] == tmp2[1] == tmp2[3] == tmp2[4] == tmp2[5] == tmp2[6] == tmp2[7] == 0
    modifies result, tmp1, tmp2
    ensures Eight(result) && Eight(tmp1) && Eight(tmp2)
    ensures tmp1[..] == [w, w, 0, 0, w, 0, 0, w]
    ensures tmp2[..] == [0, 0, w, 0, 0, 0, 0, 0]
    ensures Total(result[..], c) == old(Total(result[..], carry)) + w * C1
  {
    tmp1[0], tmp1[1], tmp1[4], tmp1[7], tmp1[3] := w, w, w, w, 0;
    tmp2[2] := w;
    ghost var v1: seq<nat> := [w, w, 0, 0, w, 0, 0, w];
    ghost var v2: seq<nat> := [0, 0, w, 0, 0, 0, 0, 0];
    c := AddIn(result, tmp1, carry, v1);
    c := SubOut(result, tmp2, c, v2);
    Coefficients1(w);
  }

  /** Digit 10 folded in: B^10 is congruent to C2. */
  method Y2(result: array<nat>, tmp1: array<nat>, w: nat, carry: int) returns (c: int)
    requires Eight(result) && Eight(tmp1) && w < W32
    requires result != tmp1
    requires tmp1[2] == tmp1[3] == tmp1[6] == 0
    modifies result, tmp1
    ensures Eight(result) && Eight(tmp1)
    ensures tmp1[..] == [w, w, 0, 0, 0, w, 0, w]
    ensures Total(result[..], c) == old(Total(result[..], carry)) + w * C2
  {
    tmp1[0], tmp1[1], tmp1[5], tmp1[7], tmp1[4] := w, w, w, w, 0;
    ghost var v1: seq<nat> := [w, w, 0, 0, 0, w, 0, w];
    c := AddIn(result, tmp1, carry, v1);
    Coefficients2(w);
  }

  /** Digit 11 folded in: B^11 is congruent to C3. */
  method Y3(result: array<nat>, tmp1: array<nat>, w: nat, carry: int) returns (c: int)
    requires Eight(result) && Eight(tmp1) && w < W32
    requires result != tmp1
    requires tmp1[2] == tmp1[4] == 0
    modifies result, tmp1
    ensures Eight(result) && Eight(tmp1)
    ensures tmp1[..] == [w, w, 0, w, 0, 0, w, w]
    ensures Total(result[..], c) == old(Total(result[..], carry)) + w * C3
  {
    tmp1[0], tmp1[1], tmp1[3], tmp1[6], tmp1[7], tmp1[5] := w, w, w, w, w, 0;
    ghost var v1: seq<nat> := [w, w, 0, w, 0, 0, w, w];
    c := AddIn(result, tmp1, carry, v1);
    Coefficients3(w);
  }

  /** Digit 12 folded in: B^12 is congruent to C4. */
  method Y4(result: array<nat>, tmp1: array<nat>, tmp3: array<nat>, w: nat, carry: int) returns (c: int)
    requires Eight(result) && Eight(tmp1) && Eight(tmp3) && w < W32
    requires result != tmp1 && result != tmp3 && tmp1 != tmp3
    requires tmp1[2] == tmp1[5] == 0
    requires tmp3[0] == tmp3[1] == tmp3[2] == tmp3[3] == tmp3[4] == tmp3[5] == tmp3[6] == 0
    modifies result, tmp1, tmp3
    ensures Eight(result) && Eight(tmp1) && Eight(tmp3)
    ensures tmp1[..] == [w, w, 0, w, w, 0, 0, w]
    ensures tmp3[..] == [0, 0, 0, 0, 0, 0, 0, w]
    ensures Total(result[..], c) == old(Total(result[..], carry)) + w * C4
  {
    tmp1[0], tmp1[1], tmp1[3], tmp1[4], tmp1[7], tmp1[6] := w, w, w, w, w, 0;
    tmp3[7] := w;
    ghost var v1: seq<nat> := [w, w, 0, w, w, 0, 0, w];
    ghost var v3: seq<nat> := [0, 0, 0, 0, 0, 0, 0, w];
    c := AddIn(result, tmp1, carry, v1);
    c := AddIn(result, tmp3, c, v3);
    Coefficients4(w);
  }

  /** Digit 13 folded in: B^13 is congruent to C5. */
  method Y5(result: array<nat>, tmp1: array<nat>, tmp2: array<nat>, tmp3: array<nat>, w: nat, carry: int)
      returns (c: int)
    requires Eight(result) && Eight(tmp1) && Eight(tmp2) && Eight(tmp3) && w < W32
    requires result != tmp1 && result != tmp2 && result != tmp3 && tmp1 != tmp2 && tmp1 != tmp3 && tmp2 != tmp3
    requires tmp1[2] == tmp1[6] == 0
    requires tmp2[0] == tmp2[1] == tmp2[3] == tmp2[4] == tmp2[5] == tmp2[6] == tmp2[7] == 0
    requires tmp3[1] == tmp3[2] == tmp3[4] == tmp3[5] == tmp3[6] == 0
    modifies result, tmp1, tmp2, tmp3
    ensures Eight(result) && Eight(tmp1) && Eight(tmp2) && Eight(tmp3)
    ensures tmp1[..] == [w, w, 0, w, w, w, 0, w]
    ensures tmp2[..] == [0, 0, w, 0, 0, 0, 0, 0]
    ensures tmp3[..] == [w, 0, 0, w, 0, 0, 0, w]
    ensures Total(result[..], c) == old(Total(result[..], carry)) + w * C5
  {
    Set5(tmp1, tmp2, tmp3, w);
    ghost var v1: seq<nat> := [w, w, 0, w, w, w, 0, w];
    ghost var v2: seq<nat> := [0, 0, w, 0, 0, 0, 0, 0];
    ghost var v3: seq<nat> := [w, 0, 0, w, 0, 0, 0, w];
    c := AddIn(result, tmp1, carry, v1);
    c := AddIn(result, tmp3, c, v3);
    c := SubOut(result, tmp2, c, v2);
    Coefficients5(w);
  }

  /** Digit 14 folded in: B^14 is congruent to C6. */
  method Y6(result: array<nat>, tmp1: array<nat>, tmp2: array<nat>, tmp3: array<nat>, w: nat, carry: int)
      returns (c: int)
    requires Eight(result) && Eight(tmp1) && Eight(tmp2) && Eight(tmp3) && w < W32
    requires result != tmp1 && result != tmp2 && result != tmp3 && tmp1 != tmp2 && tmp1 != tmp3 && tmp2 != tmp3
    requires tmp1[2] == 0
    requires tmp2[0] == tmp2[1] == tmp2[3] == tmp2[4] == tmp2[5] == tmp2[6] == tmp2[7] == 0
    requires tmp3[2] == tmp3[5] == tmp3[6] == 0
    modifies result, tmp1, tmp2, tmp3
    ensures Eight(result) && Eight(tmp1) && Eight(tmp2) && Eight(tmp3)
    ensures tmp1[..] == [w, w, 0, w, w, w, w, w]
    ensures tmp2[..] == [0, 0, w, 0, 0, 0, 0, 0]
    ensures tmp3[..] == [w, w, 0, 0, w, 0, 0, w]
    ensures Total(result[..], c) == old(Total(result[..], carry)) + w * C6
  {
    Set6(tmp1, tmp2, tmp3, w);
    ghost var v1: seq<nat> := [w, w, 0, w, w, w, w, w];
    ghost var v2: seq<nat> := [0, 0, w, 0, 0, 0, 0, 0];
    ghost var v3: seq<nat> := [w, w, 0, 0, w, 0, 0, w];
    c := AddIn(result, tmp1, carry, v1);
    c := AddIn(result, tmp3, c, v3);
    c := SubOut(result, tmp2, c, v2);
    Coefficients6(w);
  }

  /** Digit 15 folded in: B^15 is congruent to C7. */
  method Y7(result: array<nat>, tmp1: array<nat>, tmp2: array<nat>, tmp3: array<nat>, w: nat, carry: int)
      returns (c: int)
    requires Eight(result) && Eight(tmp1) && Eight(tmp2) && Eight(tmp3) && w < W32
    requires result != tmp1 && result != tmp2 && result != tmp3 && tmp1 != tmp2 && tmp1 != tmp3 && tmp2 != tmp3
    requires tmp1[2] == 0
    requires tmp2[0] == tmp2[1] == tmp2[3] == tmp2[4] == tmp2[5] == tmp2[6] == 0
    requires tmp3[2] == tmp3[3] == tmp3[6] == 0
    modifies result, tmp1, tmp2, tmp3
    ensures Eight(result) && Eight(tmp1) && Eight(tmp2) && Eight(tmp3)
    ensures tmp1[..] == [w, w, 0, w, w, w, w, w]
    ensures tmp3[..] == [w, w, 0, 0, 0, w, 0, 0]
    ensures Total(result[..], c) == old(Total(result[..], carry)) + w * C7
  {
    Set7(tmp1, tmp2, tmp3, w);
    ghost var v1: seq<nat> := [w, w, 0, w, w, w, w, w];
    ghost var v2: seq<nat> := [0, 0, 0, 0, 0, 0, 0, w];
    ghost var v3: seq<nat> := [w, w, 0, 0, 0, w, 0, 0];
    c := Double(tmp2, carry, w);
    v2 := tmp2[..];
    c := AddIn(result, tmp1, c, v1);
    c := AddIn(result, tmp3, c, v3);
    c := AddIn(result, tmp2, c, v2);
    Coefficients7(w);
  }

  /** The temporaries of digit 13. */
  method Set5(tmp1: array<nat>, tmp2: array<nat>, tmp3: array<nat>, w: nat)
    requires Eight(tmp1) && Eight(tmp2) && Eight(tmp3) && w < W32
    requires tmp1 != tmp2 && tmp1 != tmp3 && tmp2 != tmp3
    requires tmp1[2] == tmp1[6] == 0
    requires tmp2[0] == tmp2[1] == tmp2[3] == tmp2[4] == tmp2[5] == tmp2[6] == tmp2[7] == 0
    requires tmp3[1] == tmp3[2] == tmp3[4] == tmp3[5] == tmp3[6] == 0
    modifies tmp1, tmp2, tmp3
    ensures tmp1[..] == [w, w, 0, w, w, w, 0, w]
    ensures tmp2[..] == [0, 0, w, 0, 0, 0, 0, 0]
    ensures tmp3[..] == [w, 0, 0, w, 0, 0, 0, w]
  {
    tmp1[0], tmp1[1], tmp1[3], tmp1[4], tmp1[5], tmp1[7] := w, w, w, w, w, w;
    tmp2[2] := w;
    tmp3[0], tmp3[3], tmp3[7] := w, w, w;
  }

  /** The temporaries of digit 14. */
  method Set6(tmp1: array<nat>, tmp2: array<nat>, tmp3: array<nat>, w: nat)
    requires Eight(tmp1) && Eight(tmp2) && Eight(tmp3) && w < W32
    requires tmp1 != tmp2 && tmp1 != tmp3 && tmp2 != tmp3
    requires tmp1[2] == 0
    requires tmp2[0] == tmp2[1] == tmp2[3] == tmp2[4] == tmp2[5] == tmp2[6] == tmp2[7] == 0
    requires tmp3[2] == tmp3[5] == tmp3[6] == 0
    modifies tmp1, tmp2, tmp3
    ensures tmp1[..] == [w, w, 0, w, w, w, w, w]
    ensures tmp2[..] == [0, 0, w, 0, 0, 0, 0, 0]
    ensures tmp3[..] == [w, w, 0, 0, w, 0, 0, w]
  {
    tmp1[0], tmp1[1], tmp1[3], tmp1[4], tmp1[5], tmp1[6], tmp1[7] := w, w, w, w, w, w, w;
    tmp2[2] := w;
    tmp3[0], tmp3[1], tmp3[4], tmp3[7], tmp3[3] := w, w, w, w, 0;
  }

  /** The temporaries of digit 15. */
  method Set7(tmp1: array<nat>, tmp2: array<nat>, tmp3: array<nat>, w: nat)
    requires Eight(tmp1) && Eight(tmp2) && Eight(tmp3) && w < W32
    requires tmp1 != tmp2 && tmp1 != tmp3 && tmp2 != tmp3
    requires tmp1[2] == 0
    requires tmp2[0] == tmp2[1] == tmp2[3] == tmp2[4] == tmp2[5] == tmp2[6] == 0
    requires tmp3[2] == tmp3[3] == tmp3[6] == 0
    modifies tmp1, tmp2, tmp3
    ensures tmp1[..] == [w, w, 0, w, w, w, w, w]
    ensures tmp2[..] == [0, 0, 0, 0, 0, 0, 0, w]
    ensures tmp3[..] == [w, w, 0, 0, 0, w, 0, 0]
  {
    tmp1[0], tmp1[1], tmp1[3], tmp1[4], tmp1[5], tmp1[6], tmp1[7] := w, w, w, w, w, w, w;
    assert tmp1[..] == [w, w, 0, w, w, w, w, w];
    tmp2[7], tmp2[2] := w, 0;
    assert tmp2[..] == [0, 0, 0, 0, 0, 0, 0, w];
    tmp3[0], tmp3[1], tmp3[5], tmp3[4], tmp3[7] := w, w, w, 0, 0;
  }

  lemma Coefficients0(w: nat)
    ensures Octet([w, 0, 0, w, 0, 0, 0, w]) - Octet([0, 0, w, 0, 0, 0, 0, 0]) == w * C0
  {
  }

  lemma Coefficients1(w: nat)
    ensures Octet([w, w, 0, 0, w, 0, 0, w]) - Octet([0, 0, w, 0, 0, 0, 0, 0]) == w * C1
  {
  }

  lemma Coefficients2(w: nat)
    ensures Octet([w, w, 0, 0, 0, w, 0, w]) == w * C2
  {
  }

  lemma Coefficients3(w: nat)
    ensures Octet([w, w, 0, w, 0, 0, w, w]) == w * C3
  {
  }

  lemma Coefficients4(w: nat)
    ensures Octet([w, w, 0, w, w, 0, 0, w]) + Octet([0, 0, 0, 0, 0, 0, 0, w]) == w * C4
  {
  }

  lemma Coefficients5(w: nat)
    ensures Octet([w, w, 0, w, w, w, 0, w]) + Octet([w, 0, 0, w, 0, 0, 0, w]) - Octet([0, 0, w, 0, 0, 0, 0, 0]) ==
      w * C5
  {
  }

  lemma Coefficients6(w: nat)
    ensures Octet([w, w, 0, w, w, w, w, w]) + Octet([w, w, 0, 0, w, 0, 0, w]) - Octet([0, 0, w, 0, 0, 0, 0, 0]) ==
      w * C6
  {
  }

  lemma Coefficients7(w: nat)
    ensures Octet([w, w, 0, w, w, w, w, w]) + Octet([w, w, 0, 0, 0, w, 0, 0]) + 2 * Octet([0, 0, 0, 0, 0, 0, 0, w]) ==
      w * C7
  {
  }

  /** tmp shifted left by one bit; the bit shifted out goes to the carry. */
  method Double(tmp: array<nat>, carry: int, w: nat) returns (c: int)
    requires Eight(tmp) && w < W32 && tmp[..] == [0, 0, 0, 0, 0, 0, 0, w]
    modifies tmp
    ensures Eight(tmp) && Octet(tmp[..]) + (c - carry) * B8 == 2 * Octet([0, 0, 0, 0, 0, 0, 0, w])
  {
    Powers();
    WholeOctet(tmp[..]);
    var top := LShift(W32, 2, W32 / 2, tmp, tmp, 8);
    WholeOctet(tmp[..]);
    c := carry + top;
  }

  const K0: int := 0x1
  const K1: int := 0x1_00000001
  const K2: int := 0x1_00000001_00000001
  const K3: int := 0x1_00000001_00000001_00000001
  const K4: int := 0x1_00000001_00000001_00000001_00000001
  const K5: int := 0x1_00000001_00000001_00000001_00000001_00000002
  const K6: int := 0x1_00000001_00000001_00000001_00000001_00000002_00000002
  const K7: int := 0x1_00000001_00000001_00000001_00000001_00000002_00000002_00000002

  /** The low half of the product plus its high digits, each times its coefficient. */
  ghost function Folded(s: seq<nat>): int
    requires |s| == 16
  {
    Octet(s[0..8]) + s[8] * C0 + s[9] * C1 + s[10] * C2 + s[11] * C3 + s[12] * C4 + s[13] * C5 + s[14] * C6 + s[15] * C7
  }

  /** Each coefficient differs from its power of the base by a multiple of the prime. */
  lemma Coefficients()
    ensures B8 == C0 + K0 * P && W32 * B8 == C1 + K1 * P && B2 * B8 == C2 + K2 * P && B3 * B8 == C3 + K3 * P
    ensures B4 * B8 == C4 + K4 * P && B5 * B8 == C5 + K5 * P && B6 * B8 == C6 + K6 * P && B7 * B8 == C7 + K7 * P
  {
  }

  lemma FoldDigit(w: int, b: int, c: int, k: int)
    requires b == c + k * P
    ensures w * b == w * c + (w * k) * P
  {
  }

  lemma HighOctet(s: seq<nat>)
    requires |s| == 8
    ensures Octet(s) * B8 == s[0] * B8 + s[1] * (W32 * B8) + s[2] * (B2 * B8) + s[3] * (B3 * B8)
                           + s[4] * (B4 * B8) + s[5] * (B5 * B8) + s[6] * (B6 * B8) + s[7] * (B7 * B8)
  {
  }

  /** The high digits times their powers, and times their coefficients, differ by a multiple of P. */
  lemma HighCong(a: int, b: int, c: int, d: int, e: int, f: int, g: int, h: int)
    ensures a * B8 + b * (W32 * B8) + c * (B2 * B8) + d * (B3 * B8) + e * (B4 * B8) + f * (B5 * B8) + g * (B6 * B8)
      + h * (B7 * B8)
         == a * C0 + b * C1 + c * C2 + d * C3 + e * C4 + f * C5 + g * C6 + h * C7
          + (a * K0 + b * K1 + c * K2 + d * K3 + e * K4 + f * K5 + g * K6 + h * K7) * P
  {
    Coefficients();
    FoldDigit(a, B8, C0, K0);
    FoldDigit(b, W32 * B8, C1, K1);
    FoldDigit(c, B2 * B8, C2, K2);
    FoldDigit(d, B3 * B8, C3, K3);
    FoldDigit(e, B4 * B8, C4, K4);
    FoldDigit(f, B5 * B8, C5, K5);
    FoldDigit(g, B6 * B8, C6, K6);
    FoldDigit(h, B7 * B8, C7, K7);
    SumTimes(a * K0, b * K1, c * K2, d * K3, e * K4, f * K5, g * K6, h * K7, P);
  }

  /** Folding keeps the residue. */
  lemma FoldedCong(s: seq<nat>)
    requires |s| == 16
    ensures Cong(Folded(s), Seg(s, 0, 16, W32), P)
  {
    var h := s[8..16];
    ProductValue(s, h);
    HighOctet(h);
    HighCong(h[0], h[1], h[2], h[3], h[4], h[5], h[6], h[7]);
    var k := h[0] * K0 + h[1] * K1 + h[2] * K2 + h[3] * K3 + h[4] * K4 + h[5] * K5 + h[6] * K6 + h[7] * K7;
    assert Folded(s) - Seg(s, 0, 16, W32) == (-k) * P;
    CongIntro(Folded(s), Seg(s, 0, 16, W32), P, -k);
  }

  lemma ProductValue(s: seq<nat>, h: seq<nat>)
    requires |s| == 16 && h == s[8..16]
    ensures Seg(s, 0, 16, W32) == Octet(s[0..8]) + Octet(h) * B8
  {
    SegSplit(s, 0, 8, 8, W32);
    Powers();
    SegOctet(s, 0);
    SegOctet(s, 8);
  }

  lemma SumTimes(a: int, b: int, c: int, d: int, e: int, f: int, g: int, h: int, p: int)
    ensures (a + b + c + d + e + f + g + h) * p == a * p + b * p + c * p + d * p + e * p + f * p + g * p + h * p
  {
  }

  /** The first four high digits; tmp2 and tmp3 are left as the next four expect them. */
  method FoldLow(result: array<nat>, product: array<nat>, tmp1: array<nat>, tmp2: array<nat>) returns (c: int)
    requires Eight(result) && Eight(tmp1) && Eight(tmp2) && product.Length == 16 && Digits(product[..], W32)
    requires result != tmp1 && result != tmp2 && tmp1 != tmp2 && product != result && product != tmp1 && product != tmp2
    requires (forall i :: 0 <= i < 8 ==> tmp1[i] == 0 && tmp2[i] == 0)
    modifies result, tmp1, tmp2
    ensures Eight(result) && Eight(tmp1) && Eight(tmp2)
    ensures tmp1[2] == tmp1[5] == 0
    ensures tmp2[0] == tmp2[1] == tmp2[3] == tmp2[4] == tmp2[5] == tmp2[6] == tmp2[7] == 0
    ensures Total(result[..], c) ==
      old(Octet(result[..])) + product[8] * C0 + product[9] * C1 + product[10] * C2 + product[11] * C3
  {
    c := Y0(result, tmp1, tmp2, product[8], 0);
    c := Y1(result, tmp1, tmp2, product[9], c);
    c := Y2(result, tmp1, product[10], c);
    c := Y3(result, tmp1, product[11], c);
  }

  /** The last four high digits. */
  method FoldHigh(result: array<nat>, product: array<nat>, tmp1: array<nat>, tmp2: array<nat>, tmp3: array<nat>,
                  carry: int)
      returns (c: int)
    requires Eight(result) && Eight(tmp1) && Eight(tmp2) && Eight(tmp3) && product.Length == 16
    requires Digits(product[..], W32)
    requires result != tmp1 && result != tmp2 && result != tmp3 && tmp1 != tmp2 && tmp1 != tmp3 && tmp2 != tmp3
    requires product != result && product != tmp1 && product != tmp2 && product != tmp3
    requires tmp1[2] == tmp1[5] == 0
    requires tmp2[0] == tmp2[1] == tmp2[3] == tmp2[4] == tmp2[5] == tmp2[6] == tmp2[7] == 0
    requires (forall i :: 0 <= i < 8 ==> tmp3[i] == 0)
    modifies result, tmp1, tmp2, tmp3
    ensures Eight(result)
    ensures Total(result[..], c) ==
      old(Total(result[..], carry)) + product[12] * C4 + product[13] * C5 + product[14] * C6 + product[15] * C7
  {
    c := Y4(result, tmp1, tmp3, product[12], carry);
    c := Y5(result, tmp1, tmp2, tmp3, product[13], c);
    c := Y6(result, tmp1, tmp2, tmp3, product[14], c);
    c := Y7(result, tmp1, tmp2, tmp3, product[15], c);
  }

  /** The word folding: every addition and subtraction of the source, in order. The carry it leaves
      is never negative, so the source's add-back loop is never entered. */
  method Fold(result: array<nat>, product: array<nat>) returns (c: int)
    requires Eight(result) && product.Length == 16 && Digits(product[..], W32) && result != product
    modifies result
    ensures Eight(result) && Total(result[..], c) == Folded(product[..]) && c >= 0
  {
    var tmp1 := new nat[8](i => 0);
    var tmp2 := new nat[8](i => 0);
    var tmp3 := new nat[8](i => 0);
    forall i | 0 <= i < 8 { result[i] := product[i]; }
    assert result[..] == product[..][0..8];
    c := FoldLow(result, product, tmp1, tmp2);
    c := FoldHigh(result, product, tmp1, tmp2, tmp3, c);
    OctetBound(result[..]);
  }

  lemma OctetBound(s: seq<nat>)
    requires |s| == 8 && Digits(s, W32)
    ensures Octet(s) < B8
  {
    Powers();
    WholeOctet(s);
    SegBound(s, 0, 8, W32);
  }

  /** t is t0 and k times the prime, behind a bound variable to keep the product out of the loop's sight. */
  ghost predicate Moved(t0: int, k: int, t: int) {
    forall p: int :: p == P ==> MovedBy(t0, k, t, p)
  }

  ghost predicate MovedBy(t0: int, k: int, t: int, p: int) {
    t == t0 + k * p
  }

  lemma NegativeTotal(n: nat, c: int)
    requires n < B8 && c < 0
    ensures n + c * B8 < 0
  {
  }

  lemma NoCarry(n: nat, c: int)
    requires c >= 0 && n + c * B8 < P
    ensures c == 0 && n < P
  {
  }

  lemma MoveOn(t0: int, k: int, t: int)
    requires Moved(t0, k, t)
    ensures Moved(t0, k + 1, t + P)
  {
    assert MovedBy(t0, k, t, P);
  }

  lemma MovedCong(t0: int, k: int, t: int)
    requires Moved(t0, k, t)
    ensures Cong(t, t0, P)
  {
    assert MovedBy(t0, k, t, P);
    CongIntro(t, t0, P, k);
  }

  /** A total below zero: the prime is added until the carry is gone. */
  method AddBack(result: array<nat>, mod: array<nat>, carry: int)
    requires Eight(result) && Eight(mod) && result != mod && Octet(mod[..]) == P && carry < 0
    modifies result
    ensures Eight(result) && Octet(result[..]) < P
    ensures Cong(Octet(result[..]), old(Total(result[..], carry)), P)
  {
    ghost var t0, t, k := Total(result[..], carry), Total(result[..], carry), 0;
    OctetBound(result[..]);
    var c := carry;
    while c < 0
      invariant Eight(result) && Eight(mod) && Octet(mod[..]) == P
      invariant Octet(result[..]) < B8
      invariant t == Total(result[..], c) && t < P && Moved(t0, k, t)
      decreases P - t
    {
      NegativeTotal(Octet(result[..]), c);
      c := AddIn(result, mod, c, mod[..]);
      OctetBound(result[..]);
      MoveOn(t0, k, t);
      t, k := t + P, k + 1;
    }
    NoCarry(Octet(result[..]), c);
    MovedCong(t0, k, t);
  }

  /** A total of zero or more: the prime is subtracted until the rest is below it. */
  method TakeOff(result: array<nat>, mod: array<nat>, carry: int)
    requires Eight(result) && Eight(mod) && result != mod && Octet(mod[..]) == P && carry >= 0
    modifies result
    ensures Eight(result) && Octet(result[..]) < P
    ensures Cong(Octet(result[..]), old(Total(result[..], carry)), P)
  {
    ghost var t0, t, k := Total(result[..], carry), Total(result[..], carry), 0;
    OctetBound(result[..]);
    var c := carry;
    var more := Reducible(result, mod, c);
    while more
      invariant Eight(result) && Eight(mod) && Octet(mod[..]) == P
      invariant Octet(result[..]) < B8 && c >= 0
      invariant t == Total(result[..], c) && t >= 0 && t == t0 - k * P
      invariant more <==> c != 0 || Octet(result[..]) >= P
      decreases t
    {
      c := SubOut(result, mod, c, mod[..]);
      OctetBound(result[..]);
      t, k := t - P, k + 1;
      more := Reducible(result, mod, c);
    }
    CongIntro(t, t0, P, -k);
  }

  method Reducible(result: array<nat>, mod: array<nat>, carry: int) returns (r: bool)
    requires Eight(result) && Eight(mod) && Octet(mod[..]) == P
    ensures r <==> carry != 0 || Octet(result[..]) >= P
  {
    WholeOctet(result[..]);
    WholeOctet(mod[..]);
    var cmp := Cmp(W32, mod, 0, result, 8);
    r := carry != 0 || cmp != 1;
  }

  /** Both correction loops: the total, of either sign, reduced below the prime. */
  method Correct(result: array<nat>, mod: array<nat>, carry: int)
    requires Eight(result) && Eight(mod) && result != mod && Octet(mod[..]) == P
    modifies result
    ensures Eight(result) && Octet(result[..]) == old(Total(result[..], carry)) % P
  {
    ghost var t := Total(result[..], carry);
    if carry < 0 {
      AddBack(result, mod, carry);
    } else {
      TakeOff(result, mod, carry);
    }
    CongIffMod(Octet(result[..]), t, P);
    DivModUnique(Octet(result[..]), P, 0, Octet(result[..]));
  }

  /** result := product mod the SM2 prime, for every 512-bit product. */
  method MmodFastSm2(result: array<nat>, product: array<nat>, mod: array<nat>)
    requires Eight(result) && Eight(mod) && product.Length == 16 && Digits(product[..], W32)
    requires result != product && result != mod && Octet(mod[..]) == P
    modifies result
    ensures Eight(result) && Octet(result[..]) == Seg(product[..], 0, 16, W32) % P
  {
    var carry := Fold(result, product);
    FoldedCong(product[..]);
    CongIffMod(Folded(product[..]), Seg(product[..], 0, 16, W32), P);
    Correct(result, mod, carry);
  }

  /** The fast form on words: it leaves exactly what BnMod leaves. */
  method ModFast(result: array<nat>, product: array<nat>, mod: array<nat>)
    requires result.Length == 4 && product.Length == 8 && mod.Length == 4
    requires Words(result) && Words(product) && Words(mod) && V(mod, 4) == P
    modifies result
    ensures Words(result) && V(result, 4) == old(V(product, 8)) % P
  {
    var r := Halves(result, 4);
    var c := Halves(product, 8);
    var m := Halves(mod, 4);
    WholeOctet(m[..]);
    MmodFastSm2(r, c, m);
    WholeOctet(r[..]);
    Join(result, r, 4);
  }
}
