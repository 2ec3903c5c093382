/** The modes with SM4: the CBC and OCB programs of lib/gm/source/SM4_Enc.c as a whole. */
module Sm4Modes {
  import opened Cbc
  import opened Ocb
  import opened OcbBytes
  import opened OcbDistinct
  import opened OcbProgram
  import opened Sm4Core

  /** Main result: with SM4, whatever the S-box, the key and the IV, CBC decryption given the original length returns
      the message, for every length. */
  lemma Sm4CbcRoundTrip(sbox: Box, key: seq<bv8>, iv: seq<bv8>, p: seq<bv8>, c: seq<bv8>, out: seq<bv8>)
    requires |key| == 16 && |iv| == 16 && |c| == CipherLen(|p|) && |p| <= |out|
    ensures Keyed(Sm4Suite(sbox, key))
    ensures Chained(Sm4Suite(sbox, key), iv, p, c, |c| / 16) && Unchained(Sm4Suite(sbox, key), iv, c, out, |p|) ==>
      out[..|p|] == p
  {
    var s := Sm4Suite(sbox, key);
    SuiteGood(sbox, key);
    if Chained(s, iv, p, c, |c| / 16) && Unchained(s, iv, c, out, |p|) {
      CbcBack(s, iv, p, c, out);
    }
  }

  function Sm4Ocb(sbox: Box, key: seq<bv8>): Mode<bv32, bv8> {
    Mode(Sm4Suite(sbox, key), Double, 0x80, (a: bv8, b: bv8) => a | b)
  }

  function NonceBytes(): NonceOps<bv8> {
    NonceOps(1, Bottom, Clear, Joined)
  }

  lemma OrZero(a: bv8, b: bv8)
    ensures a | b == 0 <==> a == 0 && b == 0
    ensures a ^ b == 0 <==> a == b
    ensures a ^ 0 == a
  {
  }

  /** What the mode asks of the cipher and of bytes holds of SM4, whatever the S-box. */
  lemma ModeGood(sbox: Box, key: seq<bv8>)
    requires |key| == 16
    ensures var o := Sm4Ocb(sbox, key);
      Usable(o) && Good(o.s) && Lawful(o) && forall x: bv8 :: NonceBytes().bottom(x) < 64
  {
    var o := Sm4Ocb(sbox, key);
    SuiteGood(sbox, key);
    forall a: bv8, b: bv8
      ensures (o.or(a, b) == o.s.zero <==> a == o.s.zero && b == o.s.zero) && (o.s.xor(a, b) == o.s.zero <==> a == b)
    {
      OrZero(a, b);
    }
    forall a: bv8 ensures o.s.xor(a, o.s.zero) == a { OrZero(a, a); }
  }

  /** Main result: with SM4, whatever the S-box, the programs can be run with any key and any nonce of at most 15 bytes,
      and opening a sealed message gives it back with verdict zero. */
  lemma Sm4OcbRoundTrip(sbox: Box, key: seq<bv8>, nonce: seq<bv8>, p: seq<bv8>, a: seq<bv8>, text: seq<bv8>,
                        q: seq<bv8>, diff: bv8)
    requires |key| == 16 && |nonce| <= 15
    ensures Ready(Sm4Ocb(sbox, key), NonceBytes(), nonce)
    ensures var o, m := Sm4Ocb(sbox, key), |text| - 16; var start := Start(o.s, NonceBytes(), nonce);
      IsSealed(o, NonceBytes(), nonce, p, a, text) && Decided(o, start, text[..m], text[m..], a, q, diff) ==>
        q == p && diff == 0
  {
    ModeGood(sbox, key);
    var o, m := Sm4Ocb(sbox, key), |text| - 16;
    var start := Start(o.s, NonceBytes(), nonce);
    if IsSealed(o, NonceBytes(), nonce, p, a, text) && Decided(o, start, text[..m], text[m..], a, q, diff) {
      OpenSealedMessage(o, NonceBytes(), nonce, p, a, text, q, diff);
    }
  }

  /** Main result: with SM4, a sealed message of which one part of the ciphertext, one part of the associated data or
      the tag was changed is accepted exactly if nothing was changed. */
  lemma Sm4OcbChangeFound(sbox: Box, key: seq<bv8>, nonce: seq<bv8>, p: seq<bv8>, a: seq<bv8>, text: seq<bv8>,
                          text': seq<bv8>, b: seq<bv8>, q: seq<bv8>, diff: bv8)
    requires |key| == 16 && IsSealed(Sm4Ocb(sbox, key), NonceBytes(), nonce, p, a, text) && |text'| == |text|
    requires var o := Sm4Ocb(sbox, key);
      Decided(o, Start(o.s, NonceBytes(), nonce), text'[..|p|], text'[|p|..], b, q, diff)
    requires OneChange(text[..|p|], text[|p|..], a, text'[..|p|], text'[|p|..], b)
    ensures diff == 0 <==> text' == text && b == a
    ensures diff == 0 ==> q == p
  {
    ModeGood(sbox, key);
    ChangeFound(Sm4Ocb(sbox, key), NonceBytes(), nonce, p, a, text, text', b, q, diff);
  }
}
