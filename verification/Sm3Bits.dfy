/** SM3's operations bit by bit and its rounds as two sequences of words: lib/gm/source/SM3.c against sections 4 and 5
    of GM/T 0004-2012. */
module Sm3Bits {
  import opened HashStream
  import opened Sm3Block
  import opened Sm3Words
  import opened WordBits

  lemma Terms0(x: bv32, i: bv5)
    ensures ((x ^ ((x << 9) | (x >> 23)) ^ ((x << 17) | (x >> 15))) >> i) & 1 ==
      ((x >> i) & 1) ^ ((x >> (i - 9)) & 1) ^ ((x >> (i - 17)) & 1)
  {
  }

  lemma Sum0(x: bv32, i: bv5)
    ensures Bit32(x ^ ((x << 9) | (x >> 23)) ^ ((x << 17) | (x >> 15)), i) ==
      Bit32(x, i) ^ Bit32(x, i - 9) ^ Bit32(x, i - 17)
  {
    Terms0(x, i);
  }

  lemma Terms1(x: bv32, i: bv5)
    ensures ((x ^ ((x << 15) | (x >> 17)) ^ ((x << 23) | (x >> 9))) >> i) & 1 ==
      ((x >> i) & 1) ^ ((x >> (i - 15)) & 1) ^ ((x >> (i - 23)) & 1)
  {
  }

  lemma Sum1(x: bv32, i: bv5)
    ensures Bit32(x ^ ((x << 15) | (x >> 17)) ^ ((x << 23) | (x >> 9)), i) ==
      Bit32(x, i) ^ Bit32(x, i - 15) ^ Bit32(x, i - 23)
  {
    Terms1(x, i);
  }

  /** Main result: bit i of P0 is the sum of bits i, i - 9 and i - 17 modulo 2, */
  lemma P0Bits(x: bv32, i: bv5)
    ensures Bit32(P0(x), i) == Bit32(x, i) ^ Bit32(x, i - 9) ^ Bit32(x, i - 17)
  {
    Sum0(x, i);
  }

  /** and that of P1 the sum of bits i, i - 15 and i - 23. */
  lemma P1Bits(x: bv32, i: bv5)
    ensures Bit32(P1(x), i) == Bit32(x, i) ^ Bit32(x, i - 15) ^ Bit32(x, i - 23)
  {
    Sum1(x, i);
  }

  lemma Turn1(x: bv32, i: bv5)
    ensures (((x << 1) | (x >> 31)) >> i) & 1 == (x >> (i - 1)) & 1
  {
  }

  lemma Rot1Bits(x: bv32, i: bv5)
    ensures Bit32(Rot1(x), i) == Bit32(x, i - 1)
  {
    Turn1(x, i);
  }

  lemma Turn7(x: bv32, i: bv5)
    ensures (((x << 7) | (x >> 25)) >> i) & 1 == (x >> (i - 7)) & 1
  {
  }

  lemma Rot7Bits(x: bv32, i: bv5)
    ensures Bit32(Rot7(x), i) == Bit32(x, i - 7)
  {
    Turn7(x, i);
  }

  lemma Turn9(x: bv32, i: bv5)
    ensures (((x << 9) | (x >> 23)) >> i) & 1 == (x >> (i - 9)) & 1
  {
  }

  lemma Rot9Bits(x: bv32, i: bv5)
    ensures Bit32(Rot9(x), i) == Bit32(x, i - 9)
  {
    Turn9(x, i);
  }

  lemma Turn12(x: bv32, i: bv5)
    ensures (((x << 12) | (x >> 20)) >> i) & 1 == (x >> (i - 12)) & 1
  {
  }

  lemma Rot12Bits(x: bv32, i: bv5)
    ensures Bit32(Rot12(x), i) == Bit32(x, i - 12)
  {
    Turn12(x, i);
  }

  lemma Turn15(x: bv32, i: bv5)
    ensures (((x << 15) | (x >> 17)) >> i) & 1 == (x >> (i - 15)) & 1
  {
  }

  lemma Rot15Bits(x: bv32, i: bv5)
    ensures Bit32(Rot15(x), i) == Bit32(x, i - 15)
  {
    Turn15(x, i);
  }

  lemma Turn19(x: bv32, i: bv5)
    ensures (((x << 19) | (x >> 13)) >> i) & 1 == (x >> (i - 19)) & 1
  {
  }

  lemma Rot19Bits(x: bv32, i: bv5)
    ensures Bit32(Rot19(x), i) == Bit32(x, i - 19)
  {
    Turn19(x, i);
  }

  lemma ParityPlaces(x: bv32, y: bv32, z: bv32, p: bv32, m: bv32)
    requires p == x ^ y ^ z
    ensures p & m == (x & m) ^ (y & m) ^ (z & m)
  {
  }

  lemma MajorityPlaces(x: bv32, y: bv32, z: bv32, p: bv32, m: bv32)
    requires p == (x & y) | (x & z) | (y & z)
    ensures x & m == y & m ==> p & m == x & m
    ensures (x ^ y) & m == m ==> p & m == z & m
  {
  }

  lemma ChoicePlaces(x: bv32, y: bv32, z: bv32, p: bv32, m: bv32)
    requires p == (x & y) | (!x & z)
    ensures x & m == m ==> p & m == y & m
    ensures x & m == 0 ==> p & m == z & m
  {
  }

  /** FF and GG at any places m, single bits among them: the parity is the sum; */
  lemma ParityBits(x: bv32, y: bv32, z: bv32, m: bv32)
    ensures Parity(x, y, z) & m == (x & m) ^ (y & m) ^ (z & m)
  {
    ParityPlaces(x, y, z, Parity(x, y, z), m);
  }

  /** the majority is x where x and y agree and z where they differ; */
  lemma MajorityBits(x: bv32, y: bv32, z: bv32, m: bv32)
    ensures x & m == y & m ==> Majority(x, y, z) & m == x & m
    ensures (x ^ y) & m == m ==> Majority(x, y, z) & m == z & m
  {
    MajorityPlaces(x, y, z, Majority(x, y, z), m);
  }

  /** the choice is y where x is one and z where it is zero. */
  lemma ChoiceBits(x: bv32, y: bv32, z: bv32, m: bv32)
    ensures x & m == m ==> Choice(x, y, z) & m == y & m
    ensures x & m == 0 ==> Choice(x, y, z) & m == z & m
  {
    ChoicePlaces(x, y, z, Choice(x, y, z), m);
  }

  // ----- the rounds as sequences -----

  /** The words that registers A and E hold before round j. */
  ghost function WordA<W>(o: Ops<W>, v: Regs<W>, w: seq<W>, j: nat): W
    requires j + 4 <= |w| && o.full > 0
  {
    Rounds(o, v, w, j).a
  }

  ghost function WordE<W>(o: Ops<W>, v: Regs<W>, w: seq<W>, j: nat): W
    requires j + 4 <= |w| && o.full > 0
  {
    Rounds(o, v, w, j).e
  }

  /** The other registers hold the words of one, two and three rounds before, the older two turned by 9 and 19. */
  lemma OlderWords<W>(o: Ops<W>, v: Regs<W>, w: seq<W>, j: nat)
    requires 3 <= j && j + 4 <= |w| && o.full > 0
    ensures var r := Rounds(o, v, w, j);
      && r.b == WordA(o, v, w, j - 1) && r.c == o.rot9(WordA(o, v, w, j - 2)) && r.d == o.rot9(WordA(o, v, w, j - 3))
      && r.f == WordE(o, v, w, j - 1) && r.g == o.rot19(WordE(o, v, w, j - 2)) && r.h == o.rot19(WordE(o, v, w, j - 3))
  {
    assert Rounds(o, v, w, j).b == Rounds(o, v, w, j - 1).a && Rounds(o, v, w, j - 1).b == Rounds(o, v, w, j - 2).a;
    assert Rounds(o, v, w, j - 2).b == Rounds(o, v, w, j - 3).a;
    assert Rounds(o, v, w, j).f == Rounds(o, v, w, j - 1).e && Rounds(o, v, w, j - 1).f == Rounds(o, v, w, j - 2).e;
    assert Rounds(o, v, w, j - 2).f == Rounds(o, v, w, j - 3).e;
  }

  /** SS1 of round j. */
  ghost function Inner<W>(o: Ops<W>, a: W, e: W, j: nat): W
    requires o.full > 0
  {
    o.rot7(o.add(o.add(o.rot12(a), e), Turned(o, j)))
  }

  /** Main result: each new word of either sequence from those before it and from the message words by index: the sum of
      words j and j + 4 goes into A, word j into E. */
  lemma NewWords<W>(o: Ops<W>, v: Regs<W>, w: seq<W>, j: nat, a: nat -> W, e: nat -> W)
    requires 3 <= j && j + 5 <= |w| && o.full > 0
    requires forall k: nat :: k <= j ==> a(k) == WordA(o, v, w, k) && e(k) == WordE(o, v, w, k)
    ensures var ss1 := Inner(o, a(j), e(j), j);
      && WordA(o, v, w, j + 1) ==
         o.add(o.add(o.add(
           if j < 16 then o.ff0(a(j), a(j - 1), o.rot9(a(j - 2))) else o.ff1(a(j), a(j - 1), o.rot9(a(j - 2))),
           o.rot9(a(j - 3))), o.xor(ss1, o.rot12(a(j)))), o.xor(w[j], w[j + 4]))
      && WordE(o, v, w, j + 1) ==
         o.p0(o.add(o.add(o.add(
           if j < 16 then o.gg0(e(j), e(j - 1), o.rot19(e(j - 2))) else o.gg1(e(j), e(j - 1), o.rot19(e(j - 2))),
           o.rot19(e(j - 3))), ss1), w[j]))
  {
    OlderWords(o, v, w, j);
    assert Rounds(o, v, w, j + 1) ==
      Round(o, Rounds(o, v, w, j), j, Turned(o, j), w[j], o.xor(w[j], w[j + 4]));
  }

  /** The words of the message expansion by index. */
  lemma {:induction false} ExpandedAt<W>(o: Ops<W>, m: seq<W>, n: nat, j: nat)
    requires |m| == 16 && n >= 16 && j < n
    ensures var w := Expanded(o, m, n);
      w[j] == if j < 16 then m[j]
              else o.xor(o.xor(o.p1(o.xor(o.xor(w[j - 16], w[j - 9]), o.rot15(w[j - 3]))), o.rot7(w[j - 13])), w[j - 6])
    decreases n
  {
    if n > 16 && j < n - 1 { ExpandedAt(o, m, n - 1, j); }
  }
}
