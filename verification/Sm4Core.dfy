/** The words and bytes of SM4: lib/gm/source/SM4.c, for any S-box. */
module Sm4Core {
  import opened Cbc
  import opened Feistel
  import opened Sm4

  type Box = bv8 -> bv8

  const FK: seq<bv32> := [0xA3B1BAC6, 0x56AA3350, 0x677D9197, 0xB27022DC]

  const CK: seq<bv32> := [
    0x00070e15, 0x1c232a31, 0x383f464d, 0x545b6269, 0x70777e85, 0x8c939aa1, 0xa8afb6bd, 0xc4cbd2d9,
    0xe0e7eef5, 0xfc030a11, 0x181f262d, 0x343b4249, 0x50575e65, 0x6c737a81, 0x888f969d, 0xa4abb2b9,
    0xc0c7ced5, 0xdce3eaf1, 0xf8ff060d, 0x141b2229, 0x30373e45, 0x4c535a61, 0x686f767d, 0x848b9299,
    0xa0a7aeb5, 0xbcc3cad1, 0xd8dfe6ed, 0xf4fb0209, 0x10171e25, 0x2c333a41, 0x484f565d, 0x646b7279]

  /** Byte k of a word, counted from the top, and a word from its bytes. */
  function Byte0(w: bv32): bv8 { ((w >> 24) & 0xff) as bv8 }
  function Byte1(w: bv32): bv8 { ((w >> 16) & 0xff) as bv8 }
  function Byte2(w: bv32): bv8 { ((w >> 8) & 0xff) as bv8 }
  function Byte3(w: bv32): bv8 { (w & 0xff) as bv8 }

  function Word(a: bv8, b: bv8, c: bv8, d: bv8): bv32 {
    (a as bv32 << 24) | (b as bv32 << 16) | (c as bv32 << 8) | (d as bv32)
  }

  lemma WordBytes(a: bv8, b: bv8, c: bv8, d: bv8)
    ensures Byte0(Word(a, b, c, d)) == a && Byte1(Word(a, b, c, d)) == b
    ensures Byte2(Word(a, b, c, d)) == c && Byte3(Word(a, b, c, d)) == d
  {
  }

  lemma BytesWord(w: bv32)
    ensures Word(Byte0(w), Byte1(w), Byte2(w), Byte3(w)) == w
  {
  }

  /** The S-box on each byte. */
  function Substitute(sbox: Box, w: bv32): bv32 {
    Word(sbox(Byte0(w)), sbox(Byte1(w)), sbox(Byte2(w)), sbox(Byte3(w)))
  }

  /** The linear operations of the rounds and of the key schedule: sums of rotations. */
  function Linear(b: bv32): bv32 {
    b ^ ((b << 2) | (b >> 30)) ^ ((b << 10) | (b >> 22)) ^ ((b << 18) | (b >> 14)) ^ ((b << 24) | (b >> 8))
  }

  function KeyLinear(b: bv32): bv32 {
    b ^ ((b << 13) | (b >> 19)) ^ ((b << 23) | (b >> 9))
  }

  function RoundMix(sbox: Box, w: bv32): bv32 {
    Linear(Substitute(sbox, w))
  }

  function KeyMix(sbox: Box, w: bv32): bv32 {
    KeyLinear(Substitute(sbox, w))
  }

  // ----- the operations the cipher is made of -----

  function ByteAt(w: bv32, k: nat): bv8 {
    if k == 0 then Byte0(w) else if k == 1 then Byte1(w) else if k == 2 then Byte2(w) else Byte3(w)
  }

  /** SM4 with the given S-box. */
  function Machine(sbox: Box): Core<bv32, bv8> {
    Core(
      (a: bv8, b: bv8, c: bv8, d: bv8) => Word(a, b, c, d),
      (w: bv32, k: nat) => ByteAt(w, k),
      Rounds((a: bv32, b: bv32) => a ^ b, (b: bv32, c: bv32, d: bv32, k: bv32) => RoundMix(sbox, b ^ c ^ d ^ k)),
      Rounds((a: bv32, b: bv32) => a ^ b, (b: bv32, c: bv32, d: bv32, k: bv32) => KeyMix(sbox, b ^ c ^ d ^ k)),
      FK, CK)
  }

  lemma XorBack(a: bv32, t: bv32)
    ensures a ^ t ^ t == a
  {
  }

  lemma XorTurn(b: bv32, c: bv32, d: bv32, k: bv32)
    ensures b ^ c ^ d ^ k == d ^ c ^ b ^ k
  {
  }

  lemma CipherLaws(sbox: Box)
    ensures Cancels(Machine(sbox).cipher) && Unordered(Machine(sbox).cipher)
  {
    var r := Machine(sbox).cipher;
    forall a: bv32, t: bv32 ensures r.xor(r.xor(a, t), t) == a { XorBack(a, t); }
    forall b: bv32, c: bv32, d: bv32, k: bv32 ensures r.mix(b, c, d, k) == r.mix(d, c, b, k) { XorTurn(b, c, d, k); }
  }

  lemma Packing(sbox: Box)
    ensures Packs(Machine(sbox))
  {
    var m := Machine(sbox);
    forall w: bv32 ensures PacksWord(m, w) { BytesWord(w); }
    forall a: bv8, b: bv8, c: bv8, d: bv8 ensures PacksBytes(m, a, b, c, d) { WordBytes(a, b, c, d); }
  }

  /** Whatever the S-box, SM4 is a cipher that can be undone. */
  lemma MachineOk(sbox: Box)
    ensures Ok(Machine(sbox))
  {
    CipherLaws(sbox);
    Packing(sbox);
  }

  /** The suite the modes use: SM4 with the given S-box and key. */
  function Sm4Suite(sbox: Box, key: seq<bv8>): Suite<bv32, bv8> {
    var m := Machine(sbox);
    Suite(m, key,
      (b: seq<bv8>) => if |b| == 16 && |key| == 16 then Encrypted(m, key, b) else b,
      (b: seq<bv8>) => if |b| == 16 && |key| == 16 then Decrypted(m, key, b) else b,
      (a: bv8, b: bv8) => a ^ b, 0)
  }

  lemma XorLaws(a: bv8, b: bv8)
    ensures a ^ b ^ b == a && a ^ (b ^ a) == b && a ^ (a ^ b) == b
  {
  }

  /** The modes' assumptions hold of SM4, whatever the S-box. */
  lemma SuiteGood(sbox: Box, key: seq<bv8>)
    requires |key| == 16
    ensures Good(Sm4Suite(sbox, key))
  {
    var s := Sm4Suite(sbox, key);
    MachineOk(sbox);
    forall a: bv8, b: bv8
      ensures s.xor(s.xor(a, b), b) == a && s.xor(a, s.xor(b, a)) == b && s.xor(a, s.xor(a, b)) == b
    {
      XorLaws(a, b);
    }
  }
}
