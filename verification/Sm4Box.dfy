/** The S-box of lib/gm/source/SM4.c: its table, and the inversion in a field of 256 elements that it is. */
module Sm4Box {
  function Row0(l: bv8): bv8 {
    if l == 0 then 0xd6 else if l == 1 then 0x90 else if l == 2 then 0xe9 else if l == 3 then 0xfe else
    if l == 4 then 0xcc else if l == 5 then 0xe1 else if l == 6 then 0x3d else if l == 7 then 0xb7 else
    if l == 8 then 0x16 else if l == 9 then 0xb6 else if l == 10 then 0x14 else if l == 11 then 0xc2 else
    if l == 12 then 0x28 else if l == 13 then 0xfb else if l == 14 then 0x2c else 0x05
  }

  function Row1(l: bv8): bv8 {
    if l == 0 then 0x2b else if l == 1 then 0x67 else if l == 2 then 0x9a else if l == 3 then 0x76 else
    if l == 4 then 0x2a else if l == 5 then 0xbe else if l == 6 then 0x04 else if l == 7 then 0xc3 else
    if l == 8 then 0xaa else if l == 9 then 0x44 else if l == 10 then 0x13 else if l == 11 then 0x26 else
    if l == 12 then 0x49 else if l == 13 then 0x86 else if l == 14 then 0x06 else 0x99
  }

  function Row2(l: bv8): bv8 {
    if l == 0 then 0x9c else if l == 1 then 0x42 else if l == 2 then 0x50 else if l == 3 then 0xf4 else
    if l == 4 then 0x91 else if l == 5 then 0xef else if l == 6 then 0x98 else if l == 7 then 0x7a else
    if l == 8 then 0x33 else if l == 9 then 0x54 else if l == 10 then 0x0b else if l == 11 then 0x43 else
    if l == 12 then 0xed else if l == 13 then 0xcf else if l == 14 then 0xac else 0x62
  }

  function Row3(l: bv8): bv8 {
    if l == 0 then 0xe4 else if l == 1 then 0xb3 else if l == 2 then 0x1c else if l == 3 then 0xa9 else
    if l == 4 then 0xc9 else if l == 5 then 0x08 else if l == 6 then 0xe8 else if l == 7 then 0x95 else
    if l == 8 then 0x80 else if l == 9 then 0xdf else if l == 10 then 0x94 else if l == 11 then 0xfa else
    if l == 12 then 0x75 else if l == 13 then 0x8f else if l == 14 then 0x3f else 0xa6
  }

  function Row4(l: bv8): bv8 {
    if l == 0 then 0x47 else if l == 1 then 0x07 else if l == 2 then 0xa7 else if l == 3 then 0xfc else
    if l == 4 then 0xf3 else if l == 5 then 0x73 else if l == 6 then 0x17 else if l == 7 then 0xba else
    if l == 8 then 0x83 else if l == 9 then 0x59 else if l == 10 then 0x3c else if l == 11 then 0x19 else
    if l == 12 then 0xe6 else if l == 13 then 0x85 else if l == 14 then 0x4f else 0xa8
  }

  function Row5(l: bv8): bv8 {
    if l == 0 then 0x68 else if l == 1 then 0x6b else if l == 2 then 0x81 else if l == 3 then 0xb2 else
    if l == 4 then 0x71 else if l == 5 then 0x64 else if l == 6 then 0xda else if l == 7 then 0x8b else
    if l == 8 then 0xf8 else if l == 9 then 0xeb else if l == 10 then 0x0f else if l == 11 then 0x4b else
    if l == 12 then 0x70 else if l == 13 then 0x56 else if l == 14 then 0x9d else 0x35
  }

  function Row6(l: bv8): bv8 {
    if l == 0 then 0x1e else if l == 1 then 0x24 else if l == 2 then 0x0e else if l == 3 then 0x5e else
    if l == 4 then 0x63 else if l == 5 then 0x58 else if l == 6 then 0xd1 else if l == 7 then 0xa2 else
    if l == 8 then 0x25 else if l == 9 then 0x22 else if l == 10 then 0x7c else if l == 11 then 0x3b else
    if l == 12 then 0x01 else if l == 13 then 0x21 else if l == 14 then 0x78 else 0x87
  }

  function Row7(l: bv8): bv8 {
    if l == 0 then 0xd4 else if l == 1 then 0x00 else if l == 2 then 0x46 else if l == 3 then 0x57 else
    if l == 4 then 0x9f else if l == 5 then 0xd3 else if l == 6 then 0x27 else if l == 7 then 0x52 else
    if l == 8 then 0x4c else if l == 9 then 0x36 else if l == 10 then 0x02 else if l == 11 then 0xe7 else
    if l == 12 then 0xa0 else if l == 13 then 0xc4 else if l == 14 then 0xc8 else 0x9e
  }

  function Row8(l: bv8): bv8 {
    if l == 0 then 0xea else if l == 1 then 0xbf else if l == 2 then 0x8a else if l == 3 then 0xd2 else
    if l == 4 then 0x40 else if l == 5 then 0xc7 else if l == 6 then 0x38 else if l == 7 then 0xb5 else
    if l == 8 then 0xa3 else if l == 9 then 0xf7 else if l == 10 then 0xf2 else if l == 11 then 0xce else
    if l == 12 then 0xf9 else if l == 13 then 0x61 else if l == 14 then 0x15 else 0xa1
  }

  function Row9(l: bv8): bv8 {
    if l == 0 then 0xe0 else if l == 1 then 0xae else if l == 2 then 0x5d else if l == 3 then 0xa4 else
    if l == 4 then 0x9b else if l == 5 then 0x34 else if l == 6 then 0x1a else if l == 7 then 0x55 else
    if l == 8 then 0xad else if l == 9 then 0x93 else if l == 10 then 0x32 else if l == 11 then 0x30 else
    if l == 12 then 0xf5 else if l == 13 then 0x8c else if l == 14 then 0xb1 else 0xe3
  }

  function Row10(l: bv8): bv8 {
    if l == 0 then 0x1d else if l == 1 then 0xf6 else if l == 2 then 0xe2 else if l == 3 then 0x2e else
    if l == 4 then 0x82 else if l == 5 then 0x66 else if l == 6 then 0xca else if l == 7 then 0x60 else
    if l == 8 then 0xc0 else if l == 9 then 0x29 else if l == 10 then 0x23 else if l == 11 then 0xab else
    if l == 12 then 0x0d else if l == 13 then 0x53 else if l == 14 then 0x4e else 0x6f
  }

  function Row11(l: bv8): bv8 {
    if l == 0 then 0xd5 else if l == 1 then 0xdb else if l == 2 then 0x37 else if l == 3 then 0x45 else
    if l == 4 then 0xde else if l == 5 then 0xfd else if l == 6 then 0x8e else if l == 7 then 0x2f else
    if l == 8 then 0x03 else if l == 9 then 0xff else if l == 10 then 0x6a else if l == 11 then 0x72 else
    if l == 12 then 0x6d else if l == 13 then 0x6c else if l == 14 then 0x5b else 0x51
  }

  function Row12(l: bv8): bv8 {
    if l == 0 then 0x8d else if l == 1 then 0x1b else if l == 2 then 0xaf else if l == 3 then 0x92 else
    if l == 4 then 0xbb else if l == 5 then 0xdd else if l == 6 then 0xbc else if l == 7 then 0x7f else
    if l == 8 then 0x11 else if l == 9 then 0xd9 else if l == 10 then 0x5c else if l == 11 then 0x41 else
    if l == 12 then 0x1f else if l == 13 then 0x10 else if l == 14 then 0x5a else 0xd8
  }

  function Row13(l: bv8): bv8 {
    if l == 0 then 0x0a else if l == 1 then 0xc1 else if l == 2 then 0x31 else if l == 3 then 0x88 else
    if l == 4 then 0xa5 else if l == 5 then 0xcd else if l == 6 then 0x7b else if l == 7 then 0xbd else
    if l == 8 then 0x2d else if l == 9 then 0x74 else if l == 10 then 0xd0 else if l == 11 then 0x12 else
    if l == 12 then 0xb8 else if l == 13 then 0xe5 else if l == 14 then 0xb4 else 0xb0
  }

  function Row14(l: bv8): bv8 {
    if l == 0 then 0x89 else if l == 1 then 0x69 else if l == 2 then 0x97 else if l == 3 then 0x4a else
    if l == 4 then 0x0c else if l == 5 then 0x96 else if l == 6 then 0x77 else if l == 7 then 0x7e else
    if l == 8 then 0x65 else if l == 9 then 0xb9 else if l == 10 then 0xf1 else if l == 11 then 0x09 else
    if l == 12 then 0xc5 else if l == 13 then 0x6e else if l == 14 then 0xc6 else 0x84
  }

  function Row15(l: bv8): bv8 {
    if l == 0 then 0x18 else if l == 1 then 0xf0 else if l == 2 then 0x7d else if l == 3 then 0xec else
    if l == 4 then 0x3a else if l == 5 then 0xdc else if l == 6 then 0x4d else if l == 7 then 0x20 else
    if l == 8 then 0x79 else if l == 9 then 0xee else if l == 10 then 0x5f else if l == 11 then 0x3e else
    if l == 12 then 0xd7 else if l == 13 then 0xcb else if l == 14 then 0x39 else 0x48
  }

  /** SM4_Sbox. */
  function Sbox(x: bv8): bv8 {
    var h, l := x >> 4, x & 15;
    if h == 0 then Row0(l) else if h == 1 then Row1(l) else if h == 2 then Row2(l) else if h == 3 then Row3(l) else
    if h == 4 then Row4(l) else if h == 5 then Row5(l) else if h == 6 then Row6(l) else if h == 7 then Row7(l) else
    if h == 8 then Row8(l) else if h == 9 then Row9(l) else if h == 10 then Row10(l) else if h == 11 then Row11(l) else
    if h == 12 then Row12(l) else if h == 13 then Row13(l) else if h == 14 then Row14(l) else Row15(l)
  }

  /** The sum of x turned right by 0, 1, 2, 5 and 7 places, and 0xd3. */
  function Affine(x: bv8): bv8 {
    x ^ ((x >> 1) | (x << 7)) ^ ((x >> 2) | (x << 6)) ^ ((x >> 5) | (x << 3)) ^ ((x >> 7) | (x << 1)) ^ 0xd3
  }

  /** Products of polynomials of bits modulo X^8 + X^7 + X^6 + X^5 + X^4 + X^2 + 1: with X, and with b. */
  function TimesX(a: bv8): bv8 {
    (a << 1) ^ (if a >= 0x80 then 0xf5 else 0)
  }

  function Term(a: bv8, b: bv8, bit: bv8): bv8 {
    if b & bit == 0 then 0 else a
  }

  function Times(a: bv8, b: bv8): bv8 {
    var a1 := TimesX(a);
    var a2 := TimesX(a1);
    var a3 := TimesX(a2);
    var a4 := TimesX(a3);
    var a5 := TimesX(a4);
    var a6 := TimesX(a5);
    Term(a, b, 1) ^ Term(a1, b, 2) ^ Term(a2, b, 4) ^ Term(a3, b, 8) ^ Term(a4, b, 0x10) ^ Term(a5, b, 0x20)
    ^ Term(a6, b, 0x40) ^ Term(TimesX(a6), b, 0x80)
  }

  lemma Rows0(x: bv8, v: bv8)
    requires x >> 5 == 0 && Times(Affine(x), v) == 1
    ensures Sbox(x) == Affine(v)
  {
  }

  lemma Rows1(x: bv8, v: bv8)
    requires x >> 5 == 1 && Times(Affine(x), v) == 1
    ensures Sbox(x) == Affine(v)
  {
  }

  lemma Rows2(x: bv8, v: bv8)
    requires x >> 5 == 2 && Times(Affine(x), v) == 1
    ensures Sbox(x) == Affine(v)
  {
  }

  lemma Rows3(x: bv8, v: bv8)
    requires x >> 5 == 3 && Times(Affine(x), v) == 1
    ensures Sbox(x) == Affine(v)
  {
  }

  lemma Rows4(x: bv8, v: bv8)
    requires x >> 5 == 4 && Times(Affine(x), v) == 1
    ensures Sbox(x) == Affine(v)
  {
  }

  lemma Rows5(x: bv8, v: bv8)
    requires x >> 5 == 5 && Times(Affine(x), v) == 1
    ensures Sbox(x) == Affine(v)
  {
  }

  lemma Rows6(x: bv8, v: bv8)
    requires x >> 5 == 6 && Times(Affine(x), v) == 1
    ensures Sbox(x) == Affine(v)
  {
  }

  lemma Rows7(x: bv8, v: bv8)
    requires x >> 5 == 7 && Times(Affine(x), v) == 1
    ensures Sbox(x) == Affine(v)
  {
  }

  /** Main result: the table is x to A(1 / A(x)) with A affine, and the element that A sends to zero goes to A(0). */
  lemma BoxInverts(x: bv8, v: bv8)
    ensures Times(Affine(x), v) == 1 || (Affine(x) == 0 && v == 0) ==> Sbox(x) == Affine(v)
  {
    if Times(Affine(x), v) == 1 {
      var k := x >> 5;
      if k == 0 { Rows0(x, v); }
      if k == 1 { Rows1(x, v); }
      if k == 2 { Rows2(x, v); }
      if k == 3 { Rows3(x, v); }
      if k == 4 { Rows4(x, v); }
      if k == 5 { Rows5(x, v); }
      if k == 6 { Rows6(x, v); }
      if k == 7 { Rows7(x, v); }
    } else if Affine(x) == 0 {
      BoxOfZero(x);
    }
  }

  lemma BoxOfZero(x: bv8)
    requires Affine(x) == 0
    ensures Sbox(x) == Affine(0)
  {
  }
}
