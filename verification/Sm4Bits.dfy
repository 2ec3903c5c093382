/** SM4's operations bit by bit and byte by byte: lib/gm/source/SM4.c against sections 6 and 7 of GM/T 0002-2012. */
module Sm4Bits {
  import opened Feistel
  import opened Sm4
  import opened Sm4Core
  import opened WordBits

  /** Byte k, counted from the top, holds bits 24 - 8 k to 31 - 8 k. */
  lemma ByteBits(w: bv32, j: bv3)
    ensures Bit8(ByteAt(w, 0), j) as bv32 == Bit32(w, 24 + j as bv5)
    ensures Bit8(ByteAt(w, 1), j) as bv32 == Bit32(w, 16 + j as bv5)
    ensures Bit8(ByteAt(w, 2), j) as bv32 == Bit32(w, 8 + j as bv5)
    ensures Bit8(ByteAt(w, 3), j) as bv32 == Bit32(w, j as bv5)
  {
  }

  /** Byte k of the substituted word is the S-box of byte k. */
  lemma SubstituteByte(sbox: Box, w: bv32, k: nat)
    requires k < 4
    ensures ByteAt(Substitute(sbox, w), k) == sbox(ByteAt(w, k))
  {
    WordBytes(sbox(Byte0(w)), sbox(Byte1(w)), sbox(Byte2(w)), sbox(Byte3(w)));
  }

  lemma FiveBits(b: bv32, i: bv5)
    ensures ((b ^ ((b << 2) | (b >> 30)) ^ ((b << 10) | (b >> 22)) ^ ((b << 18) | (b >> 14))
              ^ ((b << 24) | (b >> 8))) >> i) & 1 ==
      ((b >> i) & 1) ^ ((b >> (i - 2)) & 1) ^ ((b >> (i - 10)) & 1) ^ ((b >> (i - 18)) & 1) ^ ((b >> (i - 24)) & 1)
  {
  }

  lemma ThreeBits(b: bv32, i: bv5)
    ensures ((b ^ ((b << 13) | (b >> 19)) ^ ((b << 23) | (b >> 9))) >> i) & 1 ==
      ((b >> i) & 1) ^ ((b >> (i - 13)) & 1) ^ ((b >> (i - 23)) & 1)
  {
  }

  lemma FiveForm(b: bv32, i: bv5)
    ensures FiveSum(b ^ ((b << 2) | (b >> 30)) ^ ((b << 10) | (b >> 22)) ^ ((b << 18) | (b >> 14))
                    ^ ((b << 24) | (b >> 8)), b, i, 2, 10, 18, 24)
  {
    FiveBits(b, i);
  }

  lemma ThreeForm(b: bv32, i: bv5)
    ensures ThreeSum(b ^ ((b << 13) | (b >> 19)) ^ ((b << 23) | (b >> 9)), b, i, 13, 23)
  {
    ThreeBits(b, i);
  }

  /** Main result: bit i of the round's linear operation is the sum of bits i, i - 2, i - 10, i - 18 and i - 24 modulo
      2, and that of the key schedule's the sum of bits i, i - 13 and i - 23; */
  lemma LinearBits(b: bv32, i: bv5)
    ensures FiveSum(Linear(b), b, i, 2, 10, 18, 24) && ThreeSum(KeyLinear(b), b, i, 13, 23)
  {
    FiveForm(b, i);
    ThreeForm(b, i);
  }

  /** the mixes are these of the substituted word. */
  lemma MixBits(sbox: Box, w: bv32, b: bv32, i: bv5)
    requires b == Substitute(sbox, w)
    ensures FiveSum(RoundMix(sbox, w), b, i, 2, 10, 18, 24) && ThreeSum(KeyMix(sbox, w), b, i, 13, 23)
  {
    LinearBits(b, i);
  }

  // ----- the recurrences -----

  lemma StatesStart<W>(r: Rounds<W>, rk: seq<W>, x: seq<W>, n: nat, k: nat)
    requires |x| == 4 && n <= |rk| && k < 4
    ensures States(r, rk, x, n)[k] == x[k]
  {
    StatesPrefix(r, rk, x, 0, n);
  }

  lemma WhitenedAt<W, B>(m: Core<W, B>, key: seq<B>, k: nat)
    requires |key| == 16 && |m.fk| == 4 && k < 4
    ensures Whitened(m, key)[k] == m.schedule.xor(m.fk[k], Load(m, key, k))
  {
  }

  lemma WordsAt<W, B>(m: Core<W, B>, b: seq<B>, k: nat)
    requires |b| == 16 && k < 4
    ensures Words(m, b)[k] == Load(m, b, k)
  {
  }

  /** The words of the key schedule: the whitened key, then the round keys. */
  ghost predicate KeyWords(sbox: Box, key: seq<bv8>, s: seq<bv32>, n: nat) {
    var m := Machine(sbox);
    n == ROUNDS && |key| == 16 && s == States(m.schedule, CK, Whitened(m, key), n)
  }

  /** Main result: after the key xored with FK word k + 4 is s[k] ^ T'(s[k + 1] ^ s[k + 2] ^ s[k + 3] ^ CK[k]), and
      these are the round keys. */
  lemma KeyWordNext(sbox: Box, key: seq<bv8>, s: seq<bv32>, n: nat, k: nat)
    requires KeyWords(sbox, key, s, n) && k < n
    ensures |s| == 36 && RoundKeys(Machine(sbox), key) == s[4..]
    ensures s[k + 4] == s[k] ^ KeyMix(sbox, s[k + 1] ^ s[k + 2] ^ s[k + 3] ^ CK[k])
  {
    var m := Machine(sbox);
    StatesNext(m.schedule, CK, Whitened(m, key), n, k);
  }

  lemma KeyWordStart(sbox: Box, key: seq<bv8>, s: seq<bv32>, n: nat, k: nat)
    requires KeyWords(sbox, key, s, n) && k < 4
    ensures |s| == 36 && s[k] == FK[k] ^ Word(key[4 * k], key[4 * k + 1], key[4 * k + 2], key[4 * k + 3])
  {
    var m := Machine(sbox);
    StatesStart(m.schedule, CK, Whitened(m, key), n, k);
    WhitenedAt(m, key, k);
  }

  /** The words of the cipher under given round keys: the block, then one word a round. */
  ghost predicate BlockWords(sbox: Box, rk: seq<bv32>, b: seq<bv8>, s: seq<bv32>, n: nat) {
    var m := Machine(sbox);
    n == ROUNDS == |rk| && |b| == 16 && s == States(m.cipher, rk, Words(m, b), n)
  }

  lemma BlockWordNext(sbox: Box, rk: seq<bv32>, b: seq<bv8>, s: seq<bv32>, n: nat, k: nat)
    requires BlockWords(sbox, rk, b, s, n) && k < n
    ensures |s| == 36 && s[k + 4] == s[k] ^ RoundMix(sbox, s[k + 1] ^ s[k + 2] ^ s[k + 3] ^ rk[k])
  {
    var m := Machine(sbox);
    StatesNext(m.cipher, rk, Words(m, b), n, k);
  }

  lemma BlockWordStart(sbox: Box, rk: seq<bv32>, b: seq<bv8>, s: seq<bv32>, n: nat, k: nat)
    requires BlockWords(sbox, rk, b, s, n) && k < 4
    ensures |s| == 36 && s[k] == Word(b[4 * k], b[4 * k + 1], b[4 * k + 2], b[4 * k + 3])
  {
    var m := Machine(sbox);
    StatesStart(m.cipher, rk, Words(m, b), n, k);
    WordsAt(m, b, k);
  }

  /** Main result: byte 4 j + k of the output is byte k of word 35 - j. */
  lemma OutputByte(sbox: Box, rk: seq<bv32>, b: seq<bv8>, s: seq<bv32>, n: nat, j: nat, k: nat)
    requires BlockWords(sbox, rk, b, s, n) && j < 4 && k < 4
    ensures |s| == 36 && Crypt(Machine(sbox), rk, b)[4 * j + k] == ByteAt(s[35 - j], k)
  {
    var m := Machine(sbox);
    OutputAt(m, s[n..], j, k);
    assert s[n..][3 - j] == s[35 - j];
  }

  lemma OutputAt<W, B>(m: Core<W, B>, w: seq<W>, j: nat, k: nat)
    requires |w| == 4 && j < 4 && k < 4
    ensures Output(m, w)[4 * j + k] == m.byte(w[3 - j], k)
  {
    var b := Bytes(m, w[3 - j]);
    assert Output(m, w)[4 * j..4 * j + 4] == b;
    assert Output(m, w)[4 * j + k] == Output(m, w)[4 * j..4 * j + 4][k] == b[k];
  }

  // ----- the constants -----

  /** Byte j of w is 7 (4 i + j) modulo 256. */
  ghost predicate CkBytes(w: bv32, i: bv8) {
    && ByteAt(w, 0) == 7 * (4 * i) && ByteAt(w, 1) == 7 * (4 * i + 1)
    && ByteAt(w, 2) == 7 * (4 * i + 2) && ByteAt(w, 3) == 7 * (4 * i + 3)
  }

  lemma CkNumbers0()
    ensures CkBytes(0x00070e15, 0) && CkBytes(0x1c232a31, 1)
    ensures CkBytes(0x383f464d, 2) && CkBytes(0x545b6269, 3)
  {
  }

  lemma CkRow0()
    ensures CkBytes(CK[0], 0) && CkBytes(CK[1], 1) && CkBytes(CK[2], 2) && CkBytes(CK[3], 3)
  {
    CkNumbers0();
    assert CK[0] == 0x00070e15 && CK[1] == 0x1c232a31 && CK[2] == 0x383f464d && CK[3] == 0x545b6269;
  }

  lemma CkNumbers1()
    ensures CkBytes(0x70777e85, 4) && CkBytes(0x8c939aa1, 5)
    ensures CkBytes(0xa8afb6bd, 6) && CkBytes(0xc4cbd2d9, 7)
  {
  }

  lemma CkRow1()
    ensures CkBytes(CK[4], 4) && CkBytes(CK[5], 5) && CkBytes(CK[6], 6) && CkBytes(CK[7], 7)
  {
    CkNumbers1();
    assert CK[4] == 0x70777e85 && CK[5] == 0x8c939aa1 && CK[6] == 0xa8afb6bd && CK[7] == 0xc4cbd2d9;
  }

  lemma CkNumbers2()
    ensures CkBytes(0xe0e7eef5, 8) && CkBytes(0xfc030a11, 9)
    ensures CkBytes(0x181f262d, 10) && CkBytes(0x343b4249, 11)
  {
  }

  lemma CkRow2()
    ensures CkBytes(CK[8], 8) && CkBytes(CK[9], 9) && CkBytes(CK[10], 10) && CkBytes(CK[11], 11)
  {
    CkNumbers2();
    assert CK[8] == 0xe0e7eef5 && CK[9] == 0xfc030a11 && CK[10] == 0x181f262d && CK[11] == 0x343b4249;
  }

  lemma CkNumbers3()
    ensures CkBytes(0x50575e65, 12) && CkBytes(0x6c737a81, 13)
    ensures CkBytes(0x888f969d, 14) && CkBytes(0xa4abb2b9, 15)
  {
  }

  lemma CkRow3()
    ensures CkBytes(CK[12], 12) && CkBytes(CK[13], 13) && CkBytes(CK[14], 14) && CkBytes(CK[15], 15)
  {
    CkNumbers3();
    assert CK[12] == 0x50575e65 && CK[13] == 0x6c737a81 && CK[14] == 0x888f969d && CK[15] == 0xa4abb2b9;
  }

  lemma CkNumbers4()
    ensures CkBytes(0xc0c7ced5, 16) && CkBytes(0xdce3eaf1, 17)
    ensures CkBytes(0xf8ff060d, 18) && CkBytes(0x141b2229, 19)
  {
  }

  lemma CkRow4()
    ensures CkBytes(CK[16], 16) && CkBytes(CK[17], 17) && CkBytes(CK[18], 18) && CkBytes(CK[19], 19)
  {
    CkNumbers4();
    assert CK[16] == 0xc0c7ced5 && CK[17] == 0xdce3eaf1 && CK[18] == 0xf8ff060d && CK[19] == 0x141b2229;
  }

  lemma CkNumbers5()
    ensures CkBytes(0x30373e45, 20) && CkBytes(0x4c535a61, 21)
    ensures CkBytes(0x686f767d, 22) && CkBytes(0x848b9299, 23)
  {
  }

  lemma CkRow5()
    ensures CkBytes(CK[20], 20) && CkBytes(CK[21], 21) && CkBytes(CK[22], 22) && CkBytes(CK[23], 23)
  {
    CkNumbers5();
    assert CK[20] == 0x30373e45 && CK[21] == 0x4c535a61 && CK[22] == 0x686f767d && CK[23] == 0x848b9299;
  }

  lemma CkNumbers6()
    ensures CkBytes(0xa0a7aeb5, 24) && CkBytes(0xbcc3cad1, 25)
    ensures CkBytes(0xd8dfe6ed, 26) && CkBytes(0xf4fb0209, 27)
  {
  }

  lemma CkRow6()
    ensures CkBytes(CK[24], 24) && CkBytes(CK[25], 25) && CkBytes(CK[26], 26) && CkBytes(CK[27], 27)
  {
    CkNumbers6();
    assert CK[24] == 0xa0a7aeb5 && CK[25] == 0xbcc3cad1 && CK[26] == 0xd8dfe6ed && CK[27] == 0xf4fb0209;
  }

  lemma CkNumbers7()
    ensures CkBytes(0x10171e25, 28) && CkBytes(0x2c333a41, 29)
    ensures CkBytes(0x484f565d, 30) && CkBytes(0x646b7279, 31)
  {
  }

  lemma CkRow7()
    ensures CkBytes(CK[28], 28) && CkBytes(CK[29], 29) && CkBytes(CK[30], 30) && CkBytes(CK[31], 31)
  {
    CkNumbers7();
    assert CK[28] == 0x10171e25 && CK[29] == 0x2c333a41 && CK[30] == 0x484f565d && CK[31] == 0x646b7279;
  }

  /** Main result: byte j of constant i is 7 (4 i + j) modulo 256. */
  lemma CkForm()
    ensures CkBytes(CK[0], 0) && CkBytes(CK[1], 1) && CkBytes(CK[2], 2) && CkBytes(CK[3], 3)
    ensures CkBytes(CK[4], 4) && CkBytes(CK[5], 5) && CkBytes(CK[6], 6) && CkBytes(CK[7], 7)
    ensures CkBytes(CK[8], 8) && CkBytes(CK[9], 9) && CkBytes(CK[10], 10) && CkBytes(CK[11], 11)
    ensures CkBytes(CK[12], 12) && CkBytes(CK[13], 13) && CkBytes(CK[14], 14) && CkBytes(CK[15], 15)
    ensures CkBytes(CK[16], 16) && CkBytes(CK[17], 17) && CkBytes(CK[18], 18) && CkBytes(CK[19], 19)
    ensures CkBytes(CK[20], 20) && CkBytes(CK[21], 21) && CkBytes(CK[22], 22) && CkBytes(CK[23], 23)
    ensures CkBytes(CK[24], 24) && CkBytes(CK[25], 25) && CkBytes(CK[26], 26) && CkBytes(CK[27], 27)
    ensures CkBytes(CK[28], 28) && CkBytes(CK[29], 29) && CkBytes(CK[30], 30) && CkBytes(CK[31], 31)
  {
    CkRow0();
    CkRow1();
    CkRow2();
    CkRow3();
    CkRow4();
    CkRow5();
    CkRow6();
    CkRow7();
  }
}
