/** The bit-level parts of OCB: double_arr and the initial offset of lib/gm/source/SM4_Enc.c. */
module OcbBytes {
  import opened OcbProgram

  /** Bit j of a byte, the highest first. */
  predicate Bit(a: bv8, j: nat)
    requires j < 8
  {
    if j == 0 then a & 128 != 0 else if j == 1 then a & 64 != 0 else if j == 2 then a & 32 != 0
    else if j == 3 then a & 16 != 0 else if j == 4 then a & 8 != 0 else if j == 5 then a & 4 != 0
    else if j == 6 then a & 2 != 0 else a & 1 != 0
  }

  /** Bit j of byte i of a string of bytes, that is bit 8 i + j. */
  predicate BitAt(b: seq<bv8>, i: nat, j: nat)
    requires i < |b| && j < 8
  {
    Bit(b[i], j)
  }

  // ----- doubling -----

  /** A byte with the top bit of the next moved in below. */
  function Up(a: bv8, next: bv8): bv8 {
    ((a & 127) << 1) | (next >> 7)
  }

  function LastUp(a: bv8, first: bv8): bv8 {
    ((a & 127) << 1) ^ (if first >> 7 == 1 then 135 else 0)
  }

  function Double(b: seq<bv8>): (d: seq<bv8>)
    ensures |b| == 16 ==> |d| == 16
  {
    if |b| != 16 then b
    else Doubled(Up, LastUp, b)
  }

  lemma UpBit(a: bv8, next: bv8, j: nat)
    requires j < 8
    ensures Bit(Up(a, next), j) == if j < 7 then Bit(a, j + 1) else Bit(next, 0)
  {
  }

  /** The bits of 135, the last byte of the reduction polynomial. */
  predicate PolyBit(j: nat) {
    j == 0 || j == 5 || j == 6 || j == 7
  }

  lemma LastUpBit(a: bv8, first: bv8, j: nat)
    requires j < 8
    ensures Bit(LastUp(a, first), j) == ((j < 7 && Bit(a, j + 1)) != (Bit(first, 0) && PolyBit(j)))
  {
  }

  /** double of section 2 of RFC 7253: every bit moves up one place, the lowest becomes zero, and the last byte is
      xored with 135 when the bit that moved out was one. */
  lemma DoubleBits(b: seq<bv8>, i: nat, j: nat)
    requires |b| == 16 && i < 16 && j < 8
    ensures i < 15 ==> BitAt(Double(b), i, j) == if j < 7 then BitAt(b, i, j + 1) else BitAt(b, i + 1, 0)
    ensures i == 15 ==> BitAt(Double(b), i, j) == ((j < 7 && BitAt(b, i, j + 1)) != (BitAt(b, 0, 0) && PolyBit(j)))
  {
    if i < 15 { UpBit(b[i], b[i + 1], j); } else { LastUpBit(b[15], b[0], j); }
  }

  // ----- the initial offset -----

  /** (a << s) | (b >> (8 - s)) in one byte, for s below 8. */
  function Joined(a: bv8, b: bv8, s: nat): bv8 {
    if s == 0 then a else if s == 1 then (a << 1) | (b >> 7) else if s == 2 then (a << 2) | (b >> 6)
    else if s == 3 then (a << 3) | (b >> 5) else if s == 4 then (a << 4) | (b >> 4)
    else if s == 5 then (a << 5) | (b >> 3)
    else if s == 6 then (a << 6) | (b >> 2) else (a << 7) | (b >> 1)
  }

  lemma JoinedBit1(a: bv8, b: bv8, j: nat)
    requires j < 8
    ensures Bit((a << 1) | (b >> 7), j) == if j < 7 then Bit(a, j + 1) else Bit(b, j - 7)
  {
  }

  lemma JoinedBit2(a: bv8, b: bv8, j: nat)
    requires j < 8
    ensures Bit((a << 2) | (b >> 6), j) == if j < 6 then Bit(a, j + 2) else Bit(b, j - 6)
  {
  }

  lemma JoinedBit3(a: bv8, b: bv8, j: nat)
    requires j < 8
    ensures Bit((a << 3) | (b >> 5), j) == if j < 5 then Bit(a, j + 3) else Bit(b, j - 5)
  {
  }

  lemma JoinedBit4(a: bv8, b: bv8, j: nat)
    requires j < 8
    ensures Bit((a << 4) | (b >> 4), j) == if j < 4 then Bit(a, j + 4) else Bit(b, j - 4)
  {
  }

  lemma JoinedBit5(a: bv8, b: bv8, j: nat)
    requires j < 8
    ensures Bit((a << 5) | (b >> 3), j) == if j < 3 then Bit(a, j + 5) else Bit(b, j - 3)
  {
  }

  lemma JoinedBit6(a: bv8, b: bv8, j: nat)
    requires j < 8
    ensures Bit((a << 6) | (b >> 2), j) == if j < 2 then Bit(a, j + 6) else Bit(b, j - 2)
  {
  }

  lemma JoinedBit7(a: bv8, b: bv8, j: nat)
    requires j < 8
    ensures Bit((a << 7) | (b >> 1), j) == if j < 1 then Bit(a, j + 7) else Bit(b, j - 1)
  {
  }

  lemma JoinedBit(a: bv8, b: bv8, s: nat, j: nat)
    requires s < 8 && j < 8
    ensures Bit(Joined(a, b, s), j) == if j + s < 8 then Bit(a, j + s) else Bit(b, j + s - 8)
  {
    if s == 1 { JoinedBit1(a, b, j); }
    else if s == 2 { JoinedBit2(a, b, j); }
    else if s == 3 { JoinedBit3(a, b, j); }
    else if s == 4 { JoinedBit4(a, b, j); }
    else if s == 5 { JoinedBit5(a, b, j); }
    else if s == 6 { JoinedBit6(a, b, j); }
    else if s == 7 { JoinedBit7(a, b, j); }
  }

  /** The low six bits as a number, and a byte without them. */
  function Bottom(a: bv8): (n: nat)
    ensures n < 64
  {
    (if Bit(a, 2) then 32 else 0) + (if Bit(a, 3) then 16 else 0) + (if Bit(a, 4) then 8 else 0) +
    (if Bit(a, 5) then 4 else 0) + (if Bit(a, 6) then 2 else 0) + (if Bit(a, 7) then 1 else 0)
  }

  function Clear(a: bv8): bv8 {
    a ^ (a % 64)
  }

  lemma ClearBits(a: bv8, j: nat)
    requires j < 8
    ensures Bit(Clear(a), j) == (j < 2 && Bit(a, j))
  {
    assert a % 64 == a & 63;
  }

  /** The block enciphered for Ktop: the first 122 bits of the nonce block and six zeros. */
  lemma TopBlockBits(nonce: seq<bv8>, i: nat, j: nat)
    requires |nonce| <= 15 && i < 16 && j < 8
    ensures var b := NonceBlock(0, 1, nonce);
      BitAt(b[15 := Clear(b[15])], i, j) == (8 * i + j < 122 && BitAt(b, i, j))
  {
    ClearBits(NonceBlock(0, 1, nonce)[15], j);
  }

  /** Each bit of the window is the bit of the stretch b places further. */
  lemma WindowBits(st: seq<bv8>, b: nat, i: nat, j: nat, i': nat, j': nat)
    requires |st| == 24 && b < 64 && i < 16 && j < 8 && j' < 8 && 8 * i' + j' == 8 * i + j + b
    ensures i' < 24 && BitAt(Window(Joined, st, b), i, j) == BitAt(st, i', j')
  {
    var q, r := b / 8, b % 8;
    Place(i + q, j + r, i', j');
    JoinedBit(st[i + q], st[i + q + 1], r, j);
  }

  lemma Place(i: nat, j: nat, i': nat, j': nat)
    requires j < 16 && j' < 8 && 8 * i' + j' == 8 * i + j
    ensures if j < 8 then i' == i && j' == j else i' == i + 1 && j' == j - 8
  {
  }
}
