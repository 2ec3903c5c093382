/** The 32-bit words of SM3: the macros of lib/gm/include/SM3.h, and that their rotations turn. */
module Sm3Words {
  import opened HashStream
  import opened Sm3Block

  function Rot1(x: bv32): bv32 { (x << 1) | (x >> 31) }
  function Rot2(x: bv32): bv32 { (x << 2) | (x >> 30) }
  function Rot4(x: bv32): bv32 { (x << 4) | (x >> 28) }
  function Rot8(x: bv32): bv32 { (x << 8) | (x >> 24) }
  function Rot7(x: bv32): bv32 { (x << 7) | (x >> 25) }
  function Rot9(x: bv32): bv32 { (x << 9) | (x >> 23) }
  function Rot12(x: bv32): bv32 { (x << 12) | (x >> 20) }
  function Rot15(x: bv32): bv32 { (x << 15) | (x >> 17) }
  function Rot16(x: bv32): bv32 { (x << 16) | (x >> 16) }
  function Rot19(x: bv32): bv32 { (x << 19) | (x >> 13) }

  function P0(x: bv32): bv32 { x ^ ((x << 9) | (x >> 23)) ^ ((x << 17) | (x >> 15)) }
  function P1(x: bv32): bv32 { x ^ ((x << 15) | (x >> 17)) ^ ((x << 23) | (x >> 9)) }
  function Parity(x: bv32, y: bv32, z: bv32): bv32 { x ^ y ^ z }
  function Majority(x: bv32, y: bv32, z: bv32): bv32 { (x & y) | (x & z) | (y & z) }
  function Choice(x: bv32, y: bv32, z: bv32): bv32 { (x & y) | (!x & z) }

  function Plus(x: bv32, y: bv32): bv32 { x + y }
  function Xor(x: bv32, y: bv32): bv32 { x ^ y }
  function Load(n: nat): bv32 { (n % 0x1_0000_0000) as bv32 }
  function Store(x: bv32): nat { x as nat }

  function Program(): Ops<bv32> {
    Ops(Plus, Xor, Rot1, Rot7, Rot9, Rot12, Rot15, Rot16, Rot19, P0, P1, Parity, Majority, Parity, Choice,
        0x79cc4519, 0x7a879d8a, 16, 32, Load, Store)
  }

  /** The initial value of section 4.1 of GM/T 0004-2012. */
  function InitialRegs(): Regs<bv32> {
    Regs(0x7380166f, 0x4914b2b9, 0x172442d7, 0xda8a0600, 0xa96f30bc, 0x163138aa, 0xe38dee4d, 0xb0fb0e4e)
  }

  lemma Twice1(x: bv32)
    ensures ((((x << 1) | (x >> 31)) << 1) | (((x << 1) | (x >> 31)) >> 31)) == ((x << 2) | (x >> 30))
  {
  }

  lemma Twice2(x: bv32)
    ensures ((((x << 2) | (x >> 30)) << 2) | (((x << 2) | (x >> 30)) >> 30)) == ((x << 4) | (x >> 28))
  {
  }

  lemma Twice4(x: bv32)
    ensures ((((x << 4) | (x >> 28)) << 4) | (((x << 4) | (x >> 28)) >> 28)) == ((x << 8) | (x >> 24))
  {
  }

  lemma Twice8(x: bv32)
    ensures ((((x << 8) | (x >> 24)) << 8) | (((x << 8) | (x >> 24)) >> 24)) == ((x << 16) | (x >> 16))
  {
  }

  lemma Twice16(x: bv32)
    ensures ((((x << 16) | (x >> 16)) << 16) | (((x << 16) | (x >> 16)) >> 16)) == x
  {
  }

  lemma {:induction false} SpinAdd<W>(rot1: W -> W, x: W, a: nat, b: nat)
    ensures Spin(rot1, x, a + b) == Spin(rot1, Spin(rot1, x, a), b)
  {
    if b > 0 {
      SpinAdd(rot1, x, a, b - 1);
      assert Spin(rot1, x, a + b) == rot1(Spin(rot1, x, a + b - 1));
    }
  }

  lemma SpinOnce<W>(rot1: W -> W, x: W, n: nat)
    requires n == 1
    ensures Spin(rot1, x, n) == rot1(x) && Spin(rot1, x, n + n) == rot1(rot1(x))
  {
    assert Spin(rot1, x, n) == rot1(Spin(rot1, x, n - 1));
    assert Spin(rot1, x, n + n) == rot1(Spin(rot1, x, n));
  }

  /** Turning by one place n times, for each power of two. */
  lemma Spin2(x: bv32, n: nat)
    requires n == 1
    ensures Spin(Rot1, x, n + n) == Rot2(x)
  {
    SpinOnce(Rot1, x, n);
    Twice1(x);
  }

  lemma Spin4(x: bv32, n: nat)
    requires n == 2
    ensures Spin(Rot1, x, n + n) == Rot4(x)
  {
    Spin2(x, n - 1);
    Spin2(Rot2(x), n - 1);
    SpinAdd(Rot1, x, n, n);
    Twice2(x);
  }

  lemma Spin8(x: bv32, n: nat)
    requires n == 4
    ensures Spin(Rot1, x, n + n) == Rot8(x)
  {
    Spin4(x, n - 2);
    Spin4(Rot4(x), n - 2);
    SpinAdd(Rot1, x, n, n);
    Twice4(x);
  }

  lemma Spin16(x: bv32, n: nat)
    requires n == 8
    ensures Spin(Rot1, x, n + n) == Rot16(x)
  {
    Spin8(x, n - 4);
    Spin8(Rot8(x), n - 4);
    SpinAdd(Rot1, x, n, n);
    Twice8(x);
  }

  lemma Spin32(x: bv32, n: nat)
    requires n == 16
    ensures Spin(Rot1, x, n + n) == x
  {
    Spin16(x, n - 8);
    Spin16(Rot16(x), n - 8);
    SpinAdd(Rot1, x, n, n);
    Twice16(x);
  }

  /** Sixteen places at once are sixteen turns, and after thirty-two a word is as before. */
  lemma ProgramTurns(n: nat)
    requires n == 16
    ensures Turns(Program())
  {
    forall x: bv32 ensures TurnsAt(Program(), x) {
      Spin16(x, n - 8);
      Spin32(x, n);
    }
  }
}
