/** SM4_SelfCheck of lib/gm/source/SM4.c: the example of appendix A of GM/T 0002-2012, word by word. */
module Sm4Check {
  import opened Feistel
  import opened Sm4
  import opened Sm4Bits
  import opened Sm4Box
  import opened Sm4Core

  /** Key and plaintext, and the ciphertext. */
  const KEY: seq<bv8> := [
    0x01, 0x23, 0x45, 0x67, 0x89, 0xab, 0xcd, 0xef, 0xfe, 0xdc, 0xba, 0x98, 0x76, 0x54, 0x32, 0x10]
  const CIPHER: seq<bv8> := [
    0x68, 0x1e, 0xdf, 0x34, 0xd2, 0x06, 0x96, 0x5e, 0x86, 0xb3, 0xe9, 0x4f, 0x53, 0x6e, 0x42, 0x46]

  ghost predicate Has<W>(s: seq<W>, i: nat, a: W, b: W, c: W, d: W) {
    i + 4 <= |s| && s[i] == a && s[i + 1] == b && s[i + 2] == c && s[i + 3] == d
  }

  ghost predicate Step<W>(r: Rounds<W>, rk: seq<W>, s: seq<W>, k: nat) {
    k + 5 <= |s| && k < |rk| && s[k + 4] == Next(r, s, k, rk[k])
  }

  ghost predicate Steps<W>(r: Rounds<W>, rk: seq<W>, s: seq<W>) {
    forall k: nat :: k < ROUNDS ==> Step(r, rk, s, k)
  }

  lemma One<W>(r: Rounds<W>, rk: seq<W>, s: seq<W>, i: nat, a: W, b: W, c: W, d: W, k: W, m: W, e: W)
    requires Steps(r, rk, s) && i < ROUNDS && Has(s, i, a, b, c, d) && i < |rk| && rk[i] == k
    requires r.mix(b, c, d, k) == m && r.xor(a, m) == e
    ensures Has(s, i + 1, b, c, d, e)
  {
    assert Step(r, rk, s, i);
  }

  /** The rounds of the key schedule and of the cipher, with the program's S-box. */
  function KeyRounds(): Rounds<bv32> {
    Machine(Sbox).schedule
  }

  function BlockRounds(): Rounds<bv32> {
    Machine(Sbox).cipher
  }

  // ----- the round keys -----

  lemma Keys0(ck: seq<bv32>, s: seq<bv32>)
    requires Steps(KeyRounds(), ck, s) && Has(s, 0, 0xa292ffa1, 0xdf01febf, 0x99a12b0f, 0xc42410cc)
    requires |ck| == 32 && ck[0] == 0x00070e15 && ck[1] == 0x1c232a31
    ensures Has(s, 2, 0x99a12b0f, 0xc42410cc, 0xf12186f9, 0x41662b61)
  {
    One(KeyRounds(), ck, s, 0, 0xa292ffa1, 0xdf01febf, 0x99a12b0f, 0xc42410cc, 0x00070e15, 0x53b37958, 0xf12186f9);
    One(KeyRounds(), ck, s, 1, 0xdf01febf, 0x99a12b0f, 0xc42410cc, 0xf12186f9, 0x1c232a31, 0x9e67d5de, 0x41662b61);
  }

  lemma Keys2(ck: seq<bv32>, s: seq<bv32>)
    requires Steps(KeyRounds(), ck, s) && Has(s, 2, 0x99a12b0f, 0xc42410cc, 0xf12186f9, 0x41662b61)
    requires |ck| == 32 && ck[2] == 0x383f464d && ck[3] == 0x545b6269
    ensures Has(s, 4, 0xf12186f9, 0x41662b61, 0x5a6ab19a, 0x7ba92077)
  {
    One(KeyRounds(), ck, s, 2, 0x99a12b0f, 0xc42410cc, 0xf12186f9, 0x41662b61, 0x383f464d, 0xc3cb9a95, 0x5a6ab19a);
    One(KeyRounds(), ck, s, 3, 0xc42410cc, 0xf12186f9, 0x41662b61, 0x5a6ab19a, 0x545b6269, 0xbf8d30bb, 0x7ba92077);
  }

  lemma Keys4(ck: seq<bv32>, s: seq<bv32>)
    requires Steps(KeyRounds(), ck, s) && Has(s, 4, 0xf12186f9, 0x41662b61, 0x5a6ab19a, 0x7ba92077)
    requires |ck| == 32 && ck[4] == 0x70777e85 && ck[5] == 0x8c939aa1
    ensures Has(s, 6, 0x5a6ab19a, 0x7ba92077, 0x367360f4, 0x776a0c61)
  {
    One(KeyRounds(), ck, s, 4, 0xf12186f9, 0x41662b61, 0x5a6ab19a, 0x7ba92077, 0x70777e85, 0xc752e60d, 0x367360f4);
    One(KeyRounds(), ck, s, 5, 0x41662b61, 0x5a6ab19a, 0x7ba92077, 0x367360f4, 0x8c939aa1, 0x360c2700, 0x776a0c61);
  }

  lemma Keys6(ck: seq<bv32>, s: seq<bv32>)
    requires Steps(KeyRounds(), ck, s) && Has(s, 6, 0x5a6ab19a, 0x7ba92077, 0x367360f4, 0x776a0c61)
    requires |ck| == 32 && ck[6] == 0xa8afb6bd && ck[7] == 0xc4cbd2d9
    ensures Has(s, 8, 0x367360f4, 0x776a0c61, 0xb6bb89b3, 0x24763151)
  {
    One(KeyRounds(), ck, s, 6, 0x5a6ab19a, 0x7ba92077, 0x367360f4, 0x776a0c61, 0xa8afb6bd, 0xecd13829, 0xb6bb89b3);
    One(KeyRounds(), ck, s, 7, 0x7ba92077, 0x367360f4, 0x776a0c61, 0xb6bb89b3, 0xc4cbd2d9, 0x5fdf1126, 0x24763151);
  }

  lemma Keys8(ck: seq<bv32>, s: seq<bv32>)
    requires Steps(KeyRounds(), ck, s) && Has(s, 8, 0x367360f4, 0x776a0c61, 0xb6bb89b3, 0x24763151)
    requires |ck| == 32 && ck[8] == 0xe0e7eef5 && ck[9] == 0xfc030a11
    ensures Has(s, 10, 0xb6bb89b3, 0x24763151, 0xa520307c, 0xb7584dbd)
  {
    One(KeyRounds(), ck, s, 8, 0x367360f4, 0x776a0c61, 0xb6bb89b3, 0x24763151, 0xe0e7eef5, 0x93535088, 0xa520307c);
    One(KeyRounds(), ck, s, 9, 0x776a0c61, 0xb6bb89b3, 0x24763151, 0xa520307c, 0xfc030a11, 0xc03241dc, 0xb7584dbd);
  }

  lemma Keys10(ck: seq<bv32>, s: seq<bv32>)
    requires Steps(KeyRounds(), ck, s) && Has(s, 10, 0xb6bb89b3, 0x24763151, 0xa520307c, 0xb7584dbd)
    requires |ck| == 32 && ck[10] == 0x181f262d && ck[11] == 0x343b4249
    ensures Has(s, 12, 0xa520307c, 0xb7584dbd, 0xc30753ed, 0x7ee55b57)
  {
    One(KeyRounds(), ck, s, 10, 0xb6bb89b3, 0x24763151, 0xa520307c, 0xb7584dbd, 0x181f262d, 0x75bcda5e, 0xc30753ed);
    One(KeyRounds(), ck, s, 11, 0x24763151, 0xa520307c, 0xb7584dbd, 0xc30753ed, 0x343b4249, 0x5a936a06, 0x7ee55b57);
  }

  lemma Keys12(ck: seq<bv32>, s: seq<bv32>)
    requires Steps(KeyRounds(), ck, s) && Has(s, 12, 0xa520307c, 0xb7584dbd, 0xc30753ed, 0x7ee55b57)
    requires |ck| == 32 && ck[12] == 0x50575e65 && ck[13] == 0x6c737a81
    ensures Has(s, 14, 0xc30753ed, 0x7ee55b57, 0x6988608c, 0x30d895b7)
  {
    One(KeyRounds(), ck, s, 12, 0xa520307c, 0xb7584dbd, 0xc30753ed, 0x7ee55b57, 0x50575e65, 0xcca850f0, 0x6988608c);
    One(KeyRounds(), ck, s, 13, 0xb7584dbd, 0xc30753ed, 0x7ee55b57, 0x6988608c, 0x6c737a81, 0x8780d80a, 0x30d895b7);
  }

  lemma Keys14(ck: seq<bv32>, s: seq<bv32>)
    requires Steps(KeyRounds(), ck, s) && Has(s, 14, 0xc30753ed, 0x7ee55b57, 0x6988608c, 0x30d895b7)
    requires |ck| == 32 && ck[14] == 0x888f969d && ck[15] == 0xa4abb2b9
    ensures Has(s, 16, 0x6988608c, 0x30d895b7, 0x44ba14af, 0x104495a1)
  {
    One(KeyRounds(), ck, s, 14, 0xc30753ed, 0x7ee55b57, 0x6988608c, 0x30d895b7, 0x888f969d, 0x87bd4742, 0x44ba14af);
    One(KeyRounds(), ck, s, 15, 0x7ee55b57, 0x6988608c, 0x30d895b7, 0x44ba14af, 0xa4abb2b9, 0x6ea1cef6, 0x104495a1);
  }

  lemma Keys16(ck: seq<bv32>, s: seq<bv32>)
    requires Steps(KeyRounds(), ck, s) && Has(s, 16, 0x6988608c, 0x30d895b7, 0x44ba14af, 0x104495a1)
    requires |ck| == 32 && ck[16] == 0xc0c7ced5 && ck[17] == 0xdce3eaf1
    ensures Has(s, 18, 0x44ba14af, 0x104495a1, 0xd120b428, 0x73b55fa3)
  {
    One(KeyRounds(), ck, s, 16, 0x6988608c, 0x30d895b7, 0x44ba14af, 0x104495a1, 0xc0c7ced5, 0xb8a8d4a4, 0xd120b428);
    One(KeyRounds(), ck, s, 17, 0x30d895b7, 0x44ba14af, 0x104495a1, 0xd120b428, 0xdce3eaf1, 0x436dca14, 0x73b55fa3);
  }

  lemma Keys18(ck: seq<bv32>, s: seq<bv32>)
    requires Steps(KeyRounds(), ck, s) && Has(s, 18, 0x44ba14af, 0x104495a1, 0xd120b428, 0x73b55fa3)
    requires |ck| == 32 && ck[18] == 0xf8ff060d && ck[19] == 0x141b2229
    ensures Has(s, 20, 0xd120b428, 0x73b55fa3, 0xcc874966, 0x92244439)
  {
    One(KeyRounds(), ck, s, 18, 0x44ba14af, 0x104495a1, 0xd120b428, 0x73b55fa3, 0xf8ff060d, 0x883d5dc9, 0xcc874966);
    One(KeyRounds(), ck, s, 19, 0x104495a1, 0xd120b428, 0x73b55fa3, 0xcc874966, 0x141b2229, 0x8260d198, 0x92244439);
  }

  lemma Keys20(ck: seq<bv32>, s: seq<bv32>)
    requires Steps(KeyRounds(), ck, s) && Has(s, 20, 0xd120b428, 0x73b55fa3, 0xcc874966, 0x92244439)
    requires |ck| == 32 && ck[20] == 0x30373e45 && ck[21] == 0x4c535a61
    ensures Has(s, 22, 0xcc874966, 0x92244439, 0xe89e641f, 0x98ca015a)
  {
    One(KeyRounds(), ck, s, 20, 0xd120b428, 0x73b55fa3, 0xcc874966, 0x92244439, 0x30373e45, 0x39bed037, 0xe89e641f);
    One(KeyRounds(), ck, s, 21, 0x73b55fa3, 0xcc874966, 0x92244439, 0xe89e641f, 0x4c535a61, 0xeb7f5ef9, 0x98ca015a);
  }

  lemma Keys22(ck: seq<bv32>, s: seq<bv32>)
    requires Steps(KeyRounds(), ck, s) && Has(s, 22, 0xcc874966, 0x92244439, 0xe89e641f, 0x98ca015a)
    requires |ck| == 32 && ck[22] == 0x686f767d && ck[23] == 0x848b9299
    ensures Has(s, 24, 0xe89e641f, 0x98ca015a, 0xc7159060, 0x99e1fd2e)
  {
    One(KeyRounds(), ck, s, 22, 0xcc874966, 0x92244439, 0xe89e641f, 0x98ca015a, 0x686f767d, 0x0b92d906, 0xc7159060);
    One(KeyRounds(), ck, s, 23, 0x92244439, 0xe89e641f, 0x98ca015a, 0xc7159060, 0x848b9299, 0x0bc5b917, 0x99e1fd2e);
  }

  lemma Keys24(ck: seq<bv32>, s: seq<bv32>)
    requires Steps(KeyRounds(), ck, s) && Has(s, 24, 0xe89e641f, 0x98ca015a, 0xc7159060, 0x99e1fd2e)
    requires |ck| == 32 && ck[24] == 0xa0a7aeb5 && ck[25] == 0xbcc3cad1
    ensures Has(s, 26, 0xc7159060, 0x99e1fd2e, 0xb79bd80c, 0x1d2115b0)
  {
    One(KeyRounds(), ck, s, 24, 0xe89e641f, 0x98ca015a, 0xc7159060, 0x99e1fd2e, 0xa0a7aeb5, 0x5f05bc13, 0xb79bd80c);
    One(KeyRounds(), ck, s, 25, 0x98ca015a, 0xc7159060, 0x99e1fd2e, 0xb79bd80c, 0xbcc3cad1, 0x85eb14ea, 0x1d2115b0);
  }

  lemma Keys26(ck: seq<bv32>, s: seq<bv32>)
    requires Steps(KeyRounds(), ck, s) && Has(s, 26, 0xc7159060, 0x99e1fd2e, 0xb79bd80c, 0x1d2115b0)
    requires |ck| == 32 && ck[26] == 0xd8dfe6ed && ck[27] == 0xf4fb0209
    ensures Has(s, 28, 0xb79bd80c, 0x1d2115b0, 0x0e228aeb, 0xf1780c81)
  {
    One(KeyRounds(), ck, s, 26, 0xc7159060, 0x99e1fd2e, 0xb79bd80c, 0x1d2115b0, 0xd8dfe6ed, 0xc9371a8b, 0x0e228aeb);
    One(KeyRounds(), ck, s, 27, 0x99e1fd2e, 0xb79bd80c, 0x1d2115b0, 0x0e228aeb, 0xf4fb0209, 0x6899f1af, 0xf1780c81);
  }

  lemma Keys28(ck: seq<bv32>, s: seq<bv32>)
    requires Steps(KeyRounds(), ck, s) && Has(s, 28, 0xb79bd80c, 0x1d2115b0, 0x0e228aeb, 0xf1780c81)
    requires |ck| == 32 && ck[28] == 0x10171e25 && ck[29] == 0x2c333a41
    ensures Has(s, 30, 0x0e228aeb, 0xf1780c81, 0x428d3654, 0x62293496)
  {
    One(KeyRounds(), ck, s, 28, 0xb79bd80c, 0x1d2115b0, 0x0e228aeb, 0xf1780c81, 0x10171e25, 0xf516ee58, 0x428d3654);
    One(KeyRounds(), ck, s, 29, 0x1d2115b0, 0x0e228aeb, 0xf1780c81, 0x428d3654, 0x2c333a41, 0x7f082126, 0x62293496);
  }

  lemma Keys30(ck: seq<bv32>, s: seq<bv32>)
    requires Steps(KeyRounds(), ck, s) && Has(s, 30, 0x0e228aeb, 0xf1780c81, 0x428d3654, 0x62293496)
    requires |ck| == 32 && ck[30] == 0x484f565d && ck[31] == 0x646b7279
    ensures Has(s, 32, 0x428d3654, 0x62293496, 0x01cf72e5, 0x9124a012)
  {
    One(KeyRounds(), ck, s, 30, 0x0e228aeb, 0xf1780c81, 0x428d3654, 0x62293496, 0x484f565d, 0x0fedf80e, 0x01cf72e5);
    One(KeyRounds(), ck, s, 31, 0xf1780c81, 0x428d3654, 0x62293496, 0x01cf72e5, 0x646b7279, 0x605cac93, 0x9124a012);
  }

  // ----- the words of the block -----

  lemma Block0(rk: seq<bv32>, x: seq<bv32>)
    requires Steps(BlockRounds(), rk, x) && Has(x, 0, 0x01234567, 0x89abcdef, 0xfedcba98, 0x76543210)
    requires |rk| == 32 && rk[0] == 0xf12186f9 && rk[1] == 0x41662b61
    ensures Has(x, 2, 0xfedcba98, 0x76543210, 0x27fad345, 0xa18b4cb2)
  {
    One(BlockRounds(), rk, x, 0, 0x01234567, 0x89abcdef, 0xfedcba98, 0x76543210, 0xf12186f9, 0x26d99622, 0x27fad345);
    One(BlockRounds(), rk, x, 1, 0x89abcdef, 0xfedcba98, 0x76543210, 0x27fad345, 0x41662b61, 0x2820815d, 0xa18b4cb2);
  }

  lemma Block2(rk: seq<bv32>, x: seq<bv32>)
    requires Steps(BlockRounds(), rk, x) && Has(x, 2, 0xfedcba98, 0x76543210, 0x27fad345, 0xa18b4cb2)
    requires |rk| == 32 && rk[2] == 0x5a6ab19a && rk[3] == 0x7ba92077
    ensures Has(x, 4, 0x27fad345, 0xa18b4cb2, 0x11c1e22a, 0xcc13e2ee)
  {
    One(BlockRounds(), rk, x, 2, 0xfedcba98, 0x76543210, 0x27fad345, 0xa18b4cb2, 0x5a6ab19a, 0xef1d58b2, 0x11c1e22a);
    One(BlockRounds(), rk, x, 3, 0x76543210, 0x27fad345, 0xa18b4cb2, 0x11c1e22a, 0x7ba92077, 0xba47d0fe, 0xcc13e2ee);
  }

  lemma Block4(rk: seq<bv32>, x: seq<bv32>)
    requires Steps(BlockRounds(), rk, x) && Has(x, 4, 0x27fad345, 0xa18b4cb2, 0x11c1e22a, 0xcc13e2ee)
    requires |rk| == 32 && rk[4] == 0x367360f4 && rk[5] == 0x776a0c61
    ensures Has(x, 6, 0x11c1e22a, 0xcc13e2ee, 0xf87c5bd5, 0x33220757)
  {
    One(BlockRounds(), rk, x, 4, 0x27fad345, 0xa18b4cb2, 0x11c1e22a, 0xcc13e2ee, 0x367360f4, 0xdf868890, 0xf87c5bd5);
    One(BlockRounds(), rk, x, 5, 0xa18b4cb2, 0x11c1e22a, 0xcc13e2ee, 0xf87c5bd5, 0x776a0c61, 0x92a94be5, 0x33220757);
  }

  lemma Block6(rk: seq<bv32>, x: seq<bv32>)
    requires Steps(BlockRounds(), rk, x) && Has(x, 6, 0x11c1e22a, 0xcc13e2ee, 0xf87c5bd5, 0x33220757)
    requires |rk| == 32 && rk[6] == 0xb6bb89b3 && rk[7] == 0x24763151
    ensures Has(x, 8, 0xf87c5bd5, 0x33220757, 0x77f4c297, 0x7a96f2eb)
  {
    One(BlockRounds(), rk, x, 6, 0x11c1e22a, 0xcc13e2ee, 0xf87c5bd5, 0x33220757, 0xb6bb89b3, 0x663520bd, 0x77f4c297);
    One(BlockRounds(), rk, x, 7, 0xcc13e2ee, 0xf87c5bd5, 0x33220757, 0x77f4c297, 0x24763151, 0xb6851005, 0x7a96f2eb);
  }

  lemma Block8(rk: seq<bv32>, x: seq<bv32>)
    requires Steps(BlockRounds(), rk, x) && Has(x, 8, 0xf87c5bd5, 0x33220757, 0x77f4c297, 0x7a96f2eb)
    requires |rk| == 32 && rk[8] == 0xa520307c && rk[9] == 0xb7584dbd
    ensures Has(x, 10, 0x77f4c297, 0x7a96f2eb, 0x27dac07f, 0x42dd0f19)
  {
    One(BlockRounds(), rk, x, 8, 0xf87c5bd5, 0x33220757, 0x77f4c297, 0x7a96f2eb, 0xa520307c, 0xdfa69baa, 0x27dac07f);
    One(BlockRounds(), rk, x, 9, 0x33220757, 0x77f4c297, 0x7a96f2eb, 0x27dac07f, 0xb7584dbd, 0x71ff084e, 0x42dd0f19);
  }

  lemma Block10(rk: seq<bv32>, x: seq<bv32>)
    requires Steps(BlockRounds(), rk, x) && Has(x, 10, 0x77f4c297, 0x7a96f2eb, 0x27dac07f, 0x42dd0f19)
    requires |rk| == 32 && rk[10] == 0xc30753ed && rk[11] == 0x7ee55b57
    ensures Has(x, 12, 0x27dac07f, 0x42dd0f19, 0xb8a5da02, 0x907127fa)
  {
    One(BlockRounds(), rk, x, 10, 0x77f4c297, 0x7a96f2eb, 0x27dac07f, 0x42dd0f19, 0xc30753ed, 0xcf511895, 0xb8a5da02);
    One(BlockRounds(), rk, x, 11, 0x7a96f2eb, 0x27dac07f, 0x42dd0f19, 0xb8a5da02, 0x7ee55b57, 0xeae7d511, 0x907127fa);
  }

  lemma Block12(rk: seq<bv32>, x: seq<bv32>)
    requires Steps(BlockRounds(), rk, x) && Has(x, 12, 0x27dac07f, 0x42dd0f19, 0xb8a5da02, 0x907127fa)
    requires |rk| == 32 && rk[12] == 0x6988608c && rk[13] == 0x30d895b7
    ensures Has(x, 14, 0xb8a5da02, 0x907127fa, 0x8b952b83, 0xd42b7c59)
  {
    One(BlockRounds(), rk, x, 12, 0x27dac07f, 0x42dd0f19, 0xb8a5da02, 0x907127fa, 0x6988608c, 0xac4febfc, 0x8b952b83);
    One(BlockRounds(), rk, x, 13, 0x42dd0f19, 0xb8a5da02, 0x907127fa, 0x8b952b83, 0x30d895b7, 0x96f67340, 0xd42b7c59);
  }

  lemma Block14(rk: seq<bv32>, x: seq<bv32>)
    requires Steps(BlockRounds(), rk, x) && Has(x, 14, 0xb8a5da02, 0x907127fa, 0x8b952b83, 0xd42b7c59)
    requires |rk| == 32 && rk[14] == 0x44ba14af && rk[15] == 0x104495a1
    ensures Has(x, 16, 0x8b952b83, 0xd42b7c59, 0x2ffc5831, 0xf69e6888)
  {
    One(BlockRounds(), rk, x, 14, 0xb8a5da02, 0x907127fa, 0x8b952b83, 0xd42b7c59, 0x44ba14af, 0x97598233, 0x2ffc5831);
    One(BlockRounds(), rk, x, 15, 0x907127fa, 0x8b952b83, 0xd42b7c59, 0x2ffc5831, 0x104495a1, 0x66ef4f72, 0xf69e6888);
  }

  lemma Block16(rk: seq<bv32>, x: seq<bv32>)
    requires Steps(BlockRounds(), rk, x) && Has(x, 16, 0x8b952b83, 0xd42b7c59, 0x2ffc5831, 0xf69e6888)
    requires |rk| == 32 && rk[16] == 0xd120b428 && rk[17] == 0x73b55fa3
    ensures Has(x, 18, 0x2ffc5831, 0xf69e6888, 0xaf2432c4, 0xed1ec85e)
  {
    One(BlockRounds(), rk, x, 16, 0x8b952b83, 0xd42b7c59, 0x2ffc5831, 0xf69e6888, 0xd120b428, 0x24b11947, 0xaf2432c4);
    One(BlockRounds(), rk, x, 17, 0xd42b7c59, 0x2ffc5831, 0xf69e6888, 0xaf2432c4, 0x73b55fa3, 0x3935b407, 0xed1ec85e);
  }

  lemma Block18(rk: seq<bv32>, x: seq<bv32>)
    requires Steps(BlockRounds(), rk, x) && Has(x, 18, 0x2ffc5831, 0xf69e6888, 0xaf2432c4, 0xed1ec85e)
    requires |rk| == 32 && rk[18] == 0xcc874966 && rk[19] == 0x92244439
    ensures Has(x, 20, 0xaf2432c4, 0xed1ec85e, 0x55a3ba22, 0x124b18aa)
  {
    One(BlockRounds(), rk, x, 18, 0x2ffc5831, 0xf69e6888, 0xaf2432c4, 0xed1ec85e, 0xcc874966, 0x7a5fe213, 0x55a3ba22);
    One(BlockRounds(), rk, x, 19, 0xf69e6888, 0xaf2432c4, 0xed1ec85e, 0x55a3ba22, 0x92244439, 0xe4d57022, 0x124b18aa);
  }

  lemma Block20(rk: seq<bv32>, x: seq<bv32>)
    requires Steps(BlockRounds(), rk, x) && Has(x, 20, 0xaf2432c4, 0xed1ec85e, 0x55a3ba22, 0x124b18aa)
    requires |rk| == 32 && rk[20] == 0xe89e641f && rk[21] == 0x98ca015a
    ensures Has(x, 22, 0x55a3ba22, 0x124b18aa, 0x6ae7725f, 0xf4cba1f9)
  {
    One(BlockRounds(), rk, x, 20, 0xaf2432c4, 0xed1ec85e, 0x55a3ba22, 0x124b18aa, 0xe89e641f, 0xc5c3409b, 0x6ae7725f);
    One(BlockRounds(), rk, x, 21, 0xed1ec85e, 0x55a3ba22, 0x124b18aa, 0x6ae7725f, 0x98ca015a, 0x19d569a7, 0xf4cba1f9);
  }

  lemma Block22(rk: seq<bv32>, x: seq<bv32>)
    requires Steps(BlockRounds(), rk, x) && Has(x, 22, 0x55a3ba22, 0x124b18aa, 0x6ae7725f, 0xf4cba1f9)
    requires |rk| == 32 && rk[22] == 0xc7159060 && rk[23] == 0x99e1fd2e
    ensures Has(x, 24, 0x6ae7725f, 0xf4cba1f9, 0x1dcdfa10, 0x2ff60603)
  {
    One(BlockRounds(), rk, x, 22, 0x55a3ba22, 0x124b18aa, 0x6ae7725f, 0xf4cba1f9, 0xc7159060, 0x486e4032, 0x1dcdfa10);
    One(BlockRounds(), rk, x, 23, 0x124b18aa, 0x6ae7725f, 0xf4cba1f9, 0x1dcdfa10, 0x99e1fd2e, 0x3dbd1ea9, 0x2ff60603);
  }

  lemma Block24(rk: seq<bv32>, x: seq<bv32>)
    requires Steps(BlockRounds(), rk, x) && Has(x, 24, 0x6ae7725f, 0xf4cba1f9, 0x1dcdfa10, 0x2ff60603)
    requires |rk| == 32 && rk[24] == 0xb79bd80c && rk[25] == 0x1d2115b0
    ensures Has(x, 26, 0x1dcdfa10, 0x2ff60603, 0xeff24fdc, 0x6fe46b75)
  {
    One(BlockRounds(), rk, x, 24, 0x6ae7725f, 0xf4cba1f9, 0x1dcdfa10, 0x2ff60603, 0xb79bd80c, 0x85153d83, 0xeff24fdc);
    One(BlockRounds(), rk, x, 25, 0xf4cba1f9, 0x1dcdfa10, 0x2ff60603, 0xeff24fdc, 0x1d2115b0, 0x9b2fca8c, 0x6fe46b75);
  }

  lemma Block26(rk: seq<bv32>, x: seq<bv32>)
    requires Steps(BlockRounds(), rk, x) && Has(x, 26, 0x1dcdfa10, 0x2ff60603, 0xeff24fdc, 0x6fe46b75)
    requires |rk| == 32 && rk[26] == 0x0e228aeb && rk[27] == 0xf1780c81
    ensures Has(x, 28, 0xeff24fdc, 0x6fe46b75, 0x893450ad, 0x7b938f4c)
  {
    One(BlockRounds(), rk, x, 26, 0x1dcdfa10, 0x2ff60603, 0xeff24fdc, 0x6fe46b75, 0x0e228aeb, 0x94f9aabd, 0x893450ad);
    One(BlockRounds(), rk, x, 27, 0x2ff60603, 0xeff24fdc, 0x6fe46b75, 0x893450ad, 0xf1780c81, 0x5465894f, 0x7b938f4c);
  }

  lemma Block28(rk: seq<bv32>, x: seq<bv32>)
    requires Steps(BlockRounds(), rk, x) && Has(x, 28, 0xeff24fdc, 0x6fe46b75, 0x893450ad, 0x7b938f4c)
    requires |rk| == 32 && rk[28] == 0x428d3654 && rk[29] == 0x62293496
    ensures Has(x, 30, 0x893450ad, 0x7b938f4c, 0x536e4246, 0x86b3e94f)
  {
    One(BlockRounds(), rk, x, 28, 0xeff24fdc, 0x6fe46b75, 0x893450ad, 0x7b938f4c, 0x428d3654, 0xbc9c0d9a, 0x536e4246);
    One(BlockRounds(), rk, x, 29, 0x6fe46b75, 0x893450ad, 0x7b938f4c, 0x536e4246, 0x62293496, 0xe957823a, 0x86b3e94f);
  }

  lemma Block30(rk: seq<bv32>, x: seq<bv32>)
    requires Steps(BlockRounds(), rk, x) && Has(x, 30, 0x893450ad, 0x7b938f4c, 0x536e4246, 0x86b3e94f)
    requires |rk| == 32 && rk[30] == 0x01cf72e5 && rk[31] == 0x9124a012
    ensures Has(x, 32, 0x536e4246, 0x86b3e94f, 0xd206965e, 0x681edf34)
  {
    One(BlockRounds(), rk, x, 30, 0x893450ad, 0x7b938f4c, 0x536e4246, 0x86b3e94f, 0x01cf72e5, 0x5b32c6f3, 0xd206965e);
    One(BlockRounds(), rk, x, 31, 0x7b938f4c, 0x536e4246, 0x86b3e94f, 0xd206965e, 0x9124a012, 0x138d5078, 0x681edf34);
  }

  // ----- the chain -----

  lemma Constants0()
    ensures CK[0] == 0x00070e15 && CK[1] == 0x1c232a31 && CK[2] == 0x383f464d && CK[3] == 0x545b6269
    ensures CK[4] == 0x70777e85 && CK[5] == 0x8c939aa1 && CK[6] == 0xa8afb6bd && CK[7] == 0xc4cbd2d9
  {
  }

  lemma Constants1()
    ensures CK[8] == 0xe0e7eef5 && CK[9] == 0xfc030a11 && CK[10] == 0x181f262d && CK[11] == 0x343b4249
    ensures CK[12] == 0x50575e65 && CK[13] == 0x6c737a81 && CK[14] == 0x888f969d && CK[15] == 0xa4abb2b9
  {
  }

  lemma Constants2()
    ensures CK[16] == 0xc0c7ced5 && CK[17] == 0xdce3eaf1 && CK[18] == 0xf8ff060d && CK[19] == 0x141b2229
    ensures CK[20] == 0x30373e45 && CK[21] == 0x4c535a61 && CK[22] == 0x686f767d && CK[23] == 0x848b9299
  {
  }

  lemma Constants3()
    ensures CK[24] == 0xa0a7aeb5 && CK[25] == 0xbcc3cad1 && CK[26] == 0xd8dfe6ed && CK[27] == 0xf4fb0209
    ensures CK[28] == 0x10171e25 && CK[29] == 0x2c333a41 && CK[30] == 0x484f565d && CK[31] == 0x646b7279
  {
  }

  lemma KeyChain0(s: seq<bv32>)
    requires Steps(KeyRounds(), CK, s) && Has(s, 0, 0xa292ffa1, 0xdf01febf, 0x99a12b0f, 0xc42410cc)
    ensures Has(s, 4, 0xf12186f9, 0x41662b61, 0x5a6ab19a, 0x7ba92077)
    ensures Has(s, 8, 0x367360f4, 0x776a0c61, 0xb6bb89b3, 0x24763151)
  {
    Constants0();
    Keys0(CK, s);
    Keys2(CK, s);
    Keys4(CK, s);
    Keys6(CK, s);
  }

  lemma KeyChain1(s: seq<bv32>)
    requires Steps(KeyRounds(), CK, s) && Has(s, 8, 0x367360f4, 0x776a0c61, 0xb6bb89b3, 0x24763151)
    ensures Has(s, 12, 0xa520307c, 0xb7584dbd, 0xc30753ed, 0x7ee55b57)
    ensures Has(s, 16, 0x6988608c, 0x30d895b7, 0x44ba14af, 0x104495a1)
  {
    Constants1();
    Keys8(CK, s);
    Keys10(CK, s);
    Keys12(CK, s);
    Keys14(CK, s);
  }

  lemma KeyChain2(s: seq<bv32>)
    requires Steps(KeyRounds(), CK, s) && Has(s, 16, 0x6988608c, 0x30d895b7, 0x44ba14af, 0x104495a1)
    ensures Has(s, 20, 0xd120b428, 0x73b55fa3, 0xcc874966, 0x92244439)
    ensures Has(s, 24, 0xe89e641f, 0x98ca015a, 0xc7159060, 0x99e1fd2e)
  {
    Constants2();
    Keys16(CK, s);
    Keys18(CK, s);
    Keys20(CK, s);
    Keys22(CK, s);
  }

  lemma KeyChain3(s: seq<bv32>)
    requires Steps(KeyRounds(), CK, s) && Has(s, 24, 0xe89e641f, 0x98ca015a, 0xc7159060, 0x99e1fd2e)
    ensures Has(s, 28, 0xb79bd80c, 0x1d2115b0, 0x0e228aeb, 0xf1780c81)
    ensures Has(s, 32, 0x428d3654, 0x62293496, 0x01cf72e5, 0x9124a012)
  {
    Constants3();
    Keys24(CK, s);
    Keys26(CK, s);
    Keys28(CK, s);
    Keys30(CK, s);
  }

  lemma BlockChain0(rk: seq<bv32>, x: seq<bv32>)
    requires Steps(BlockRounds(), rk, x) && |rk| == 32 && Has(x, 0, 0x01234567, 0x89abcdef, 0xfedcba98, 0x76543210)
    requires Has(rk, 0, 0xf12186f9, 0x41662b61, 0x5a6ab19a, 0x7ba92077)
    requires Has(rk, 4, 0x367360f4, 0x776a0c61, 0xb6bb89b3, 0x24763151)
    ensures Has(x, 8, 0xf87c5bd5, 0x33220757, 0x77f4c297, 0x7a96f2eb)
  {
    Block0(rk, x);
    Block2(rk, x);
    Block4(rk, x);
    Block6(rk, x);
  }

  lemma BlockChain1(rk: seq<bv32>, x: seq<bv32>)
    requires Steps(BlockRounds(), rk, x) && |rk| == 32 && Has(x, 8, 0xf87c5bd5, 0x33220757, 0x77f4c297, 0x7a96f2eb)
    requires Has(rk, 8, 0xa520307c, 0xb7584dbd, 0xc30753ed, 0x7ee55b57)
    requires Has(rk, 12, 0x6988608c, 0x30d895b7, 0x44ba14af, 0x104495a1)
    ensures Has(x, 16, 0x8b952b83, 0xd42b7c59, 0x2ffc5831, 0xf69e6888)
  {
    Block8(rk, x);
    Block10(rk, x);
    Block12(rk, x);
    Block14(rk, x);
  }

  lemma BlockChain2(rk: seq<bv32>, x: seq<bv32>)
    requires Steps(BlockRounds(), rk, x) && |rk| == 32 && Has(x, 16, 0x8b952b83, 0xd42b7c59, 0x2ffc5831, 0xf69e6888)
    requires Has(rk, 16, 0xd120b428, 0x73b55fa3, 0xcc874966, 0x92244439)
    requires Has(rk, 20, 0xe89e641f, 0x98ca015a, 0xc7159060, 0x99e1fd2e)
    ensures Has(x, 24, 0x6ae7725f, 0xf4cba1f9, 0x1dcdfa10, 0x2ff60603)
  {
    Block16(rk, x);
    Block18(rk, x);
    Block20(rk, x);
    Block22(rk, x);
  }

  lemma BlockChain3(rk: seq<bv32>, x: seq<bv32>)
    requires Steps(BlockRounds(), rk, x) && |rk| == 32 && Has(x, 24, 0x6ae7725f, 0xf4cba1f9, 0x1dcdfa10, 0x2ff60603)
    requires Has(rk, 24, 0xb79bd80c, 0x1d2115b0, 0x0e228aeb, 0xf1780c81)
    requires Has(rk, 28, 0x428d3654, 0x62293496, 0x01cf72e5, 0x9124a012)
    ensures Has(x, 32, 0x536e4246, 0x86b3e94f, 0xd206965e, 0x681edf34)
  {
    Block24(rk, x);
    Block26(rk, x);
    Block28(rk, x);
    Block30(rk, x);
  }

  /** The words of a list four further on. */
  lemma Shifted<W>(s: seq<W>, i: nat, a: W, b: W, c: W, d: W)
    requires Has(s, i + 4, a, b, c, d)
    ensures Has(s[4..], i, a, b, c, d)
  {
  }

  lemma KeyList(s: seq<bv32>)
    requires Steps(KeyRounds(), CK, s) && Has(s, 0, 0xa292ffa1, 0xdf01febf, 0x99a12b0f, 0xc42410cc)
    ensures Has(s[4..], 0, 0xf12186f9, 0x41662b61, 0x5a6ab19a, 0x7ba92077)
    ensures Has(s[4..], 4, 0x367360f4, 0x776a0c61, 0xb6bb89b3, 0x24763151)
    ensures Has(s[4..], 8, 0xa520307c, 0xb7584dbd, 0xc30753ed, 0x7ee55b57)
    ensures Has(s[4..], 12, 0x6988608c, 0x30d895b7, 0x44ba14af, 0x104495a1)
    ensures Has(s[4..], 16, 0xd120b428, 0x73b55fa3, 0xcc874966, 0x92244439)
    ensures Has(s[4..], 20, 0xe89e641f, 0x98ca015a, 0xc7159060, 0x99e1fd2e)
    ensures Has(s[4..], 24, 0xb79bd80c, 0x1d2115b0, 0x0e228aeb, 0xf1780c81)
    ensures Has(s[4..], 28, 0x428d3654, 0x62293496, 0x01cf72e5, 0x9124a012)
  {
    KeyChain0(s);
    KeyChain1(s);
    KeyChain2(s);
    KeyChain3(s);
    Shifted(s, 0, 0xf12186f9, 0x41662b61, 0x5a6ab19a, 0x7ba92077);
    Shifted(s, 4, 0x367360f4, 0x776a0c61, 0xb6bb89b3, 0x24763151);
    Shifted(s, 8, 0xa520307c, 0xb7584dbd, 0xc30753ed, 0x7ee55b57);
    Shifted(s, 12, 0x6988608c, 0x30d895b7, 0x44ba14af, 0x104495a1);
    Shifted(s, 16, 0xd120b428, 0x73b55fa3, 0xcc874966, 0x92244439);
    Shifted(s, 20, 0xe89e641f, 0x98ca015a, 0xc7159060, 0x99e1fd2e);
    Shifted(s, 24, 0xb79bd80c, 0x1d2115b0, 0x0e228aeb, 0xf1780c81);
    Shifted(s, 28, 0x428d3654, 0x62293496, 0x01cf72e5, 0x9124a012);
  }

  lemma BlockList(s: seq<bv32>, x: seq<bv32>)
    requires Steps(KeyRounds(), CK, s) && Has(s, 0, 0xa292ffa1, 0xdf01febf, 0x99a12b0f, 0xc42410cc)
    requires |s| == 36 && Steps(BlockRounds(), s[4..], x) && Has(x, 0, 0x01234567, 0x89abcdef, 0xfedcba98, 0x76543210)
    ensures Has(x, 32, 0x536e4246, 0x86b3e94f, 0xd206965e, 0x681edf34)
  {
    KeyList(s);
    BlockChain0(s[4..], x);
    BlockChain1(s[4..], x);
    BlockChain2(s[4..], x);
    BlockChain3(s[4..], x);
  }

  lemma StatesStep<W>(r: Rounds<W>, rk: seq<W>, x: seq<W>, s: seq<W>, n: nat)
    requires |x| == 4 && n == ROUNDS && n <= |rk| && s == States(r, rk, x, n)
    ensures Steps(r, rk, s)
  {
    forall k: nat | k < ROUNDS ensures Step(r, rk, s, k) { StatesNext(r, rk, x, n, k); }
  }

  lemma KeyStart(s: seq<bv32>, n: nat)
    requires KeyWords(Sbox, KEY, s, n)
    ensures Has(s, 0, 0xa292ffa1, 0xdf01febf, 0x99a12b0f, 0xc42410cc)
  {
    KeyWordStart(Sbox, KEY, s, n, 0);
    KeyWordStart(Sbox, KEY, s, n, 1);
    KeyWordStart(Sbox, KEY, s, n, 2);
    KeyWordStart(Sbox, KEY, s, n, 3);
  }

  lemma BlockStart(rk: seq<bv32>, x: seq<bv32>, n: nat)
    requires BlockWords(Sbox, rk, KEY, x, n)
    ensures Has(x, 0, 0x01234567, 0x89abcdef, 0xfedcba98, 0x76543210)
  {
    BlockWordStart(Sbox, rk, KEY, x, n, 0);
    BlockWordStart(Sbox, rk, KEY, x, n, 1);
    BlockWordStart(Sbox, rk, KEY, x, n, 2);
    BlockWordStart(Sbox, rk, KEY, x, n, 3);
  }

  /** The last words of the block. */
  lemma LastWords(s: seq<bv32>, x: seq<bv32>, n: nat)
    requires KeyWords(Sbox, KEY, s, n) && |s| == 36 && BlockWords(Sbox, s[4..], KEY, x, n)
    ensures Has(x, 32, 0x536e4246, 0x86b3e94f, 0xd206965e, 0x681edf34)
  {
    StatesStep(KeyRounds(), CK, Whitened(Machine(Sbox), KEY), s, n);
    StatesStep(BlockRounds(), s[4..], Words(Machine(Sbox), KEY), x, n);
    KeyStart(s, n);
    BlockStart(s[4..], x, n);
    BlockList(s, x);
  }

  lemma OutputWords<W, B>(m: Core<W, B>, rk: seq<W>, b: seq<B>, s: seq<W>, n: nat)
    requires n == ROUNDS == |rk| && |b| == 16 && s == States(m.cipher, rk, Words(m, b), n)
    ensures |s| == 36
    ensures Crypt(m, rk, b) == Bytes(m, s[35]) + Bytes(m, s[34]) + Bytes(m, s[33]) + Bytes(m, s[32])
  {
    assert s[n..][0] == s[32] && s[n..][1] == s[33] && s[n..][2] == s[34] && s[n..][3] == s[35];
  }

  lemma CipherBytes(m: Core<bv32, bv8>)
    requires m == Machine(Sbox)
    ensures CIPHER == Bytes(m, 0x681edf34) + Bytes(m, 0xd206965e) + Bytes(m, 0x86b3e94f) + Bytes(m, 0x536e4246)
  {
    assert Bytes(m, 0x681edf34) == [0x68, 0x1e, 0xdf, 0x34] && Bytes(m, 0xd206965e) == [0xd2, 0x06, 0x96, 0x5e];
    assert Bytes(m, 0x86b3e94f) == [0x86, 0xb3, 0xe9, 0x4f] && Bytes(m, 0x536e4246) == [0x53, 0x6e, 0x42, 0x46];
  }

  lemma ExampleWords(s: seq<bv32>, x: seq<bv32>, n: nat, key: seq<bv8>)
    requires KeyWords(Sbox, key, s, n) && |s| == 36 && BlockWords(Sbox, s[4..], key, x, n) && key == KEY
    ensures Crypt(Machine(Sbox), s[4..], key) == CIPHER
  {
    var m := Machine(Sbox);
    LastWords(s, x, n);
    OutputWords(m, s[4..], key, x, n);
    CipherBytes(m);
  }

  /** Main result: the example of the standard, encrypted and decrypted. */
  lemma Example(n: nat, key: seq<bv8>)
    requires n == ROUNDS && key == KEY
    ensures Encrypted(Machine(Sbox), key, key) == CIPHER && Decrypted(Machine(Sbox), key, CIPHER) == key
  {
    var m := Machine(Sbox);
    var s := States(m.schedule, CK, Whitened(m, key), n);
    KeyWordNext(Sbox, key, s, n, 0);
    var x := States(m.cipher, s[4..], Words(m, key), n);
    ExampleWords(s, x, n, key);
    MachineOk(Sbox);
    DecryptEncrypt(m, key, key);
  }

  method Filled16<B>(s: seq<B>) returns (a: array<B>)
    requires |s| == 16
    ensures fresh(a) && a.Length == 16 && a[0..16] == s
  {
    a := new B[16](i requires 0 <= i < 16 => s[i]);
  }

  lemma WholeSplice<B>(d: seq<B>, p: nat, b: seq<B>)
    requires p == 0 && |d| == |b|
    ensures Splice(d, p, b) == b
  {
  }

  method Encrypted16<W(0), B>(m: Core<W, B>, key: seq<B>, plain: seq<B>) returns (out: array<B>)
    requires |key| == |plain| == 16 && |m.fk| == 4 && |m.ck| == ROUNDS
    ensures fresh(out) && out.Length == 16 && out[..] == Encrypted(m, key, plain)
  {
    var p := Filled16(plain);
    out := Filled16(plain);
    WholeSplice(out[..], 0, Encrypted(m, key, plain));
    Encrypt(m, key, p, 0, out, 0);
  }

  method Decrypted16<W(0), B>(m: Core<W, B>, key: seq<B>, cipher: seq<B>) returns (out: array<B>)
    requires |key| == |cipher| == 16 && |m.fk| == 4 && |m.ck| == ROUNDS
    ensures fresh(out) && out.Length == 16 && out[..] == Decrypted(m, key, cipher)
  {
    var c := Filled16(cipher);
    out := Filled16(cipher);
    WholeSplice(out[..], 0, Decrypted(m, key, cipher));
    Decrypt(m, key, c, 0, out, 0);
  }

  /** Encrypt and decrypt, and compare byte by byte. */
  method CheckWith<W(0), B(==)>(m: Core<W, B>, key: seq<B>, plain: seq<B>, cipher: seq<B>) returns (code: nat)
    requires |key| == |plain| == |cipher| == 16 && |m.fk| == 4 && |m.ck| == ROUNDS
    ensures code == if Encrypted(m, key, plain) == cipher && Decrypted(m, key, cipher) == plain then 0 else 1
  {
    var enOutput := Encrypted16(m, key, plain);
    var deOutput := Decrypted16(m, key, cipher);
    code := Compare(enOutput, cipher, deOutput, plain);
  }

  method Compare<B(==)>(a: array<B>, s: seq<B>, b: array<B>, t: seq<B>) returns (code: nat)
    requires a.Length == |s| == b.Length == |t|
    ensures code == if a[..] == s && b[..] == t then 0 else 1
  {
    var i := 0;
    while i < |s|
      invariant 0 <= i <= |s| && forall k :: 0 <= k < i ==> a[k] == s[k] && b[k] == t[k]
    {
      if a[i] != s[i] || b[i] != t[i] {
        assert a[..][i] == a[i] && b[..][i] == b[i];
        return 1;
      }
      i := i + 1;
    }
    code := 0;
  }

  /** SM4_SelfCheck. */
  method SelfCheck() returns (code: nat)
    ensures code == 0
  {
    var key, cipher := KEY, CIPHER;
    Example(ROUNDS, key);
    code := CheckWith(Machine(Sbox), key, key, cipher);
  }
}
