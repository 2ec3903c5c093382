/** SHA-512's operations bit by bit, its rounds as two sequences of words and its constants as roots: demo/crypt/crypt.c
    against sections 4 to 6 of FIPS 180-4. */
module Sha512Bits {
  import opened HashStream
  import opened Sha512Block
  import opened Sha512Words
  import opened WordBits

  lemma BigSigma0Terms(x: bv64, i: bv6)
    ensures ((((x >> 28) | (x << 36)) ^ ((x >> 34) | (x << 30)) ^ ((x >> 39) | (x << 25))) >> i) & 1 ==
      ((x >> (i + 28)) & 1) ^ ((x >> (i + 34)) & 1) ^ ((x >> (i + 39)) & 1)
  {
  }

  lemma BigSigma1Terms(x: bv64, i: bv6)
    ensures ((((x >> 14) | (x << 50)) ^ ((x >> 18) | (x << 46)) ^ ((x >> 41) | (x << 23))) >> i) & 1 ==
      ((x >> (i + 14)) & 1) ^ ((x >> (i + 18)) & 1) ^ ((x >> (i + 41)) & 1)
  {
  }

  lemma SmallSigma0Terms(x: bv64, i: bv6)
    ensures ((((x >> 1) | (x << 63)) ^ ((x >> 8) | (x << 56)) ^ (x >> 7)) >> i) & 1 ==
      ((x >> (i + 1)) & 1) ^ ((x >> (i + 8)) & 1) ^ (if i < 57 then (x >> (i + 7)) & 1 else 0)
  {
  }

  lemma SmallSigma1Terms(x: bv64, i: bv6)
    ensures ((((x >> 19) | (x << 45)) ^ ((x >> 61) | (x << 3)) ^ (x >> 6)) >> i) & 1 ==
      ((x >> (i + 19)) & 1) ^ ((x >> (i + 61)) & 1) ^ (if i < 58 then (x >> (i + 6)) & 1 else 0)
  {
  }

  lemma BigSigma0Sum(x: bv64, i: bv6)
    ensures TurnsSum(((x >> 28) | (x << 36)) ^ ((x >> 34) | (x << 30)) ^ ((x >> 39) | (x << 25)), x, i, 28, 34, 39)
  {
    BigSigma0Terms(x, i);
  }

  lemma BigSigma1Sum(x: bv64, i: bv6)
    ensures TurnsSum(((x >> 14) | (x << 50)) ^ ((x >> 18) | (x << 46)) ^ ((x >> 41) | (x << 23)), x, i, 14, 18, 41)
  {
    BigSigma1Terms(x, i);
  }

  lemma SmallSigma0Sum(x: bv64, i: bv6)
    ensures ShiftSum(((x >> 1) | (x << 63)) ^ ((x >> 8) | (x << 56)) ^ (x >> 7), x, i, 1, 8, 7)
  {
    SmallSigma0Terms(x, i);
  }

  lemma SmallSigma1Sum(x: bv64, i: bv6)
    ensures ShiftSum(((x >> 19) | (x << 45)) ^ ((x >> 61) | (x << 3)) ^ (x >> 6), x, i, 19, 61, 6)
  {
    SmallSigma1Terms(x, i);
  }

  /** Main result: the sigma functions bit by bit, bit numbers modulo 64. */
  lemma SigmaBits(x: bv64, i: bv6)
    ensures TurnsSum(BigSigma0(x), x, i, 28, 34, 39)
    ensures TurnsSum(BigSigma1(x), x, i, 14, 18, 41)
    ensures ShiftSum(SmallSigma0(x), x, i, 1, 8, 7)
    ensures ShiftSum(SmallSigma1(x), x, i, 19, 61, 6)
  {
    BigSigma0Sum(x, i);
    BigSigma1Sum(x, i);
    SmallSigma0Sum(x, i);
    SmallSigma1Sum(x, i);
  }

  lemma ChPlaces(x: bv64, y: bv64, z: bv64, p: bv64, m: bv64)
    requires p == z ^ (x & (z ^ y))
    ensures x & m == m ==> p & m == y & m
    ensures x & m == 0 ==> p & m == z & m
  {
  }

  lemma MajPlaces(x: bv64, y: bv64, z: bv64, p: bv64, m: bv64)
    requires p == (x & y) ^ (z & (x ^ y))
    ensures x & m == y & m ==> p & m == x & m
    ensures (x ^ y) & m == m ==> p & m == z & m
  {
  }

  /** At any places m, single bits among them: Ch is y where x is one and z where it is zero; Maj is x where x and y
      agree and z where they differ. */
  lemma ChBits(x: bv64, y: bv64, z: bv64, m: bv64)
    ensures x & m == m ==> Ch(x, y, z) & m == y & m
    ensures x & m == 0 ==> Ch(x, y, z) & m == z & m
  {
    ChPlaces(x, y, z, Ch(x, y, z), m);
  }

  lemma MajBits(x: bv64, y: bv64, z: bv64, m: bv64)
    ensures x & m == y & m ==> Maj(x, y, z) & m == x & m
    ensures (x ^ y) & m == m ==> Maj(x, y, z) & m == z & m
  {
    MajPlaces(x, y, z, Maj(x, y, z), m);
  }

  // ----- the rounds as sequences -----

  /** The words that registers a and e hold before round t. */
  ghost function WordA<W>(o: Ops<W>, ks: seq<W>, v: Regs<W>, w: seq<W>, t: nat): W
    requires t <= |ks| && t <= |w|
  {
    Rounds(o, ks, v, w, t).a
  }

  ghost function WordE<W>(o: Ops<W>, ks: seq<W>, v: Regs<W>, w: seq<W>, t: nat): W
    requires t <= |ks| && t <= |w|
  {
    Rounds(o, ks, v, w, t).e
  }

  /** The other registers hold the words of one, two and three rounds before. */
  lemma OlderWords<W>(o: Ops<W>, ks: seq<W>, v: Regs<W>, w: seq<W>, t: nat)
    requires 3 <= t <= |ks| && t <= |w|
    ensures var r := Rounds(o, ks, v, w, t);
      && r.b == WordA(o, ks, v, w, t - 1) && r.c == WordA(o, ks, v, w, t - 2) && r.d == WordA(o, ks, v, w, t - 3)
      && r.f == WordE(o, ks, v, w, t - 1) && r.g == WordE(o, ks, v, w, t - 2) && r.h == WordE(o, ks, v, w, t - 3)
  {
    var r0, r1, r2 := Rounds(o, ks, v, w, t), Rounds(o, ks, v, w, t - 1), Rounds(o, ks, v, w, t - 2);
    assert r0.b == r1.a && r1.b == r2.a && r2.b == Rounds(o, ks, v, w, t - 3).a;
    assert r0.f == r1.e && r1.f == r2.e && r2.f == Rounds(o, ks, v, w, t - 3).e;
  }

  /** Main result: each new word of either sequence from those before it, constant t and word t of the schedule. */
  lemma NewWords<W>(o: Ops<W>, ks: seq<W>, v: Regs<W>, w: seq<W>, t: nat, a: nat -> W, e: nat -> W)
    requires 3 <= t < |ks| && t < |w|
    requires forall k: nat :: k <= t ==> a(k) == WordA(o, ks, v, w, k) && e(k) == WordE(o, ks, v, w, k)
    ensures var t1 := o.add(o.add(o.add(o.add(e(t - 3), o.S1(e(t))), o.ch(e(t), e(t - 1), e(t - 2))), ks[t]), w[t]);
      && WordA(o, ks, v, w, t + 1) == o.add(t1, o.add(o.S0(a(t)), o.maj(a(t), a(t - 1), a(t - 2))))
      && WordE(o, ks, v, w, t + 1) == o.add(a(t - 3), t1)
  {
    OlderWords(o, ks, v, w, t);
    assert Rounds(o, ks, v, w, t + 1) == Round(o, Rounds(o, ks, v, w, t), ks[t], w[t]);
  }

  /** Word t of the schedule from the words before it. */
  lemma ScheduleWord<W>(o: Ops<W>, m: seq<W>, n: nat, w: seq<W>, t: nat)
    requires |m| == 16 && n >= 16 && w == Schedule(o, m, n) && t < n
    ensures w[t] == if t < 16 then m[t] else o.add(o.add(o.add(o.s1(w[t - 2]), w[t - 7]), o.s0(w[t - 15])), w[t - 16])
  {
    if t >= 16 { ScheduleAt(o, m, t, n); } else { SchedulePrefix(o, m, 16, n); }
  }

  /** The compression adds the last four words of either sequence to the state. */
  lemma AddedWords<W>(o: Ops<W>, ks: seq<W>, v: Regs<W>, m: seq<W>, n: nat, w: seq<W>)
    requires |m| == 16 && |ks| == n > 16 && w == Schedule(o, m, n)
    ensures var r := Compressed(o, ks, v, m);
      && r.a == o.add(v.a, WordA(o, ks, v, w, n)) && r.b == o.add(v.b, WordA(o, ks, v, w, n - 1))
      && r.c == o.add(v.c, WordA(o, ks, v, w, n - 2)) && r.d == o.add(v.d, WordA(o, ks, v, w, n - 3))
      && r.e == o.add(v.e, WordE(o, ks, v, w, n)) && r.f == o.add(v.f, WordE(o, ks, v, w, n - 1))
      && r.g == o.add(v.g, WordE(o, ks, v, w, n - 2)) && r.h == o.add(v.h, WordE(o, ks, v, w, n - 3))
  {
    OlderWords(o, ks, v, w, n);
  }

  // ----- the constants -----

  /** k is the fractional part of the cube root of q to 64 bits, r being the integer part. */
  ghost predicate CubeRoot(q: nat, r: nat, k: int) {
    var x := r * TWO64 + k;
    0 <= k < TWO64 && x * x * x <= q * TWO64 * TWO64 * TWO64 < (x + 1) * (x + 1) * (x + 1)
  }

  ghost predicate SquareRoot(q: nat, r: nat, k: int) {
    var x := r * TWO64 + k;
    0 <= k < TWO64 && x * x <= q * TWO64 * TWO64 < (x + 1) * (x + 1)
  }

  /** Main result: the initial registers are the square roots of the first eight primes, */
  lemma InitialRoots(r: Regs<int>)
    requires r == InitialRegs()
    ensures SquareRoot(2, 1, r.a)
    ensures SquareRoot(3, 1, r.b)
    ensures SquareRoot(5, 2, r.c)
    ensures SquareRoot(7, 2, r.d)
    ensures SquareRoot(11, 3, r.e)
    ensures SquareRoot(13, 3, r.f)
    ensures SquareRoot(17, 4, r.g)
    ensures SquareRoot(19, 4, r.h)
  {
  }

  /** and the round constants the cube roots of the first eighty. */
  lemma Roots0(k: seq<int>)
    requires k == RoundConstants()
    ensures CubeRoot(2, 1, k[0]) && CubeRoot(3, 1, k[1]) && CubeRoot(5, 1, k[2]) && CubeRoot(7, 1, k[3])
    ensures CubeRoot(11, 2, k[4]) && CubeRoot(13, 2, k[5]) && CubeRoot(17, 2, k[6]) && CubeRoot(19, 2, k[7])
  {
  }

  lemma Roots1(k: seq<int>)
    requires k == RoundConstants()
    ensures CubeRoot(23, 2, k[8]) && CubeRoot(29, 3, k[9]) && CubeRoot(31, 3, k[10]) && CubeRoot(37, 3, k[11])
    ensures CubeRoot(41, 3, k[12]) && CubeRoot(43, 3, k[13]) && CubeRoot(47, 3, k[14]) && CubeRoot(53, 3, k[15])
  {
  }

  lemma Roots2(k: seq<int>)
    requires k == RoundConstants()
    ensures CubeRoot(59, 3, k[16]) && CubeRoot(61, 3, k[17]) && CubeRoot(67, 4, k[18]) && CubeRoot(71, 4, k[19])
    ensures CubeRoot(73, 4, k[20]) && CubeRoot(79, 4, k[21]) && CubeRoot(83, 4, k[22]) && CubeRoot(89, 4, k[23])
  {
  }

  lemma Roots3(k: seq<int>)
    requires k == RoundConstants()
    ensures CubeRoot(97, 4, k[24]) && CubeRoot(101, 4, k[25]) && CubeRoot(103, 4, k[26]) && CubeRoot(107, 4, k[27])
    ensures CubeRoot(109, 4, k[28]) && CubeRoot(113, 4, k[29]) && CubeRoot(127, 5, k[30]) && CubeRoot(131, 5, k[31])
  {
  }

  lemma Roots4(k: seq<int>)
    requires k == RoundConstants()
    ensures CubeRoot(137, 5, k[32]) && CubeRoot(139, 5, k[33]) && CubeRoot(149, 5, k[34]) && CubeRoot(151, 5, k[35])
    ensures CubeRoot(157, 5, k[36]) && CubeRoot(163, 5, k[37]) && CubeRoot(167, 5, k[38]) && CubeRoot(173, 5, k[39])
  {
  }

  lemma Roots5(k: seq<int>)
    requires k == RoundConstants()
    ensures CubeRoot(179, 5, k[40]) && CubeRoot(181, 5, k[41]) && CubeRoot(191, 5, k[42]) && CubeRoot(193, 5, k[43])
    ensures CubeRoot(197, 5, k[44]) && CubeRoot(199, 5, k[45]) && CubeRoot(211, 5, k[46]) && CubeRoot(223, 6, k[47])
  {
  }

  lemma Roots6(k: seq<int>)
    requires k == RoundConstants()
    ensures CubeRoot(227, 6, k[48]) && CubeRoot(229, 6, k[49]) && CubeRoot(233, 6, k[50]) && CubeRoot(239, 6, k[51])
    ensures CubeRoot(241, 6, k[52]) && CubeRoot(251, 6, k[53]) && CubeRoot(257, 6, k[54]) && CubeRoot(263, 6, k[55])
  {
  }

  lemma Roots7(k: seq<int>)
    requires k == RoundConstants()
    ensures CubeRoot(269, 6, k[56]) && CubeRoot(271, 6, k[57]) && CubeRoot(277, 6, k[58]) && CubeRoot(281, 6, k[59])
    ensures CubeRoot(283, 6, k[60]) && CubeRoot(293, 6, k[61]) && CubeRoot(307, 6, k[62]) && CubeRoot(311, 6, k[63])
  {
  }

  lemma Roots8(k: seq<int>)
    requires k == RoundConstants()
    ensures CubeRoot(313, 6, k[64]) && CubeRoot(317, 6, k[65]) && CubeRoot(331, 6, k[66]) && CubeRoot(337, 6, k[67])
    ensures CubeRoot(347, 7, k[68]) && CubeRoot(349, 7, k[69]) && CubeRoot(353, 7, k[70]) && CubeRoot(359, 7, k[71])
  {
  }

  lemma Roots9(k: seq<int>)
    requires k == RoundConstants()
    ensures CubeRoot(367, 7, k[72]) && CubeRoot(373, 7, k[73]) && CubeRoot(379, 7, k[74]) && CubeRoot(383, 7, k[75])
    ensures CubeRoot(389, 7, k[76]) && CubeRoot(397, 7, k[77]) && CubeRoot(401, 7, k[78]) && CubeRoot(409, 7, k[79])
  {
  }
}
