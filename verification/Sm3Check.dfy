/** The first example of SM3_SelfTest in lib/gm/source/SM3.c, which is that of appendix A.1 of GM/T 0004-2012: the
    digest of "abc", word by word. */
module Sm3Check {
  import opened Bytes
  import opened Collections
  import opened HashStream
  import opened Sm3
  import opened Sm3Bits
  import opened Sm3Block
  import opened Sm3Words

  ghost predicate Has<W>(s: seq<W>, i: nat, a: W, b: W, c: W, d: W) {
    i + 4 <= |s| && s[i] == a && s[i + 1] == b && s[i + 2] == c && s[i + 3] == d
  }

  // ----- the message expansion -----

  ghost predicate ExpandsAt<W>(o: Ops<W>, w: seq<W>, j: nat) {
    16 <= j < |w| && w[j] == Mixed(o, w[j - 16], w[j - 13], w[j - 9], w[j - 6], w[j - 3])
  }

  ghost predicate Expands<W>(o: Ops<W>, w: seq<W>) {
    |w| == EXPANDED && forall j: nat :: 16 <= j < EXPANDED ==> ExpandsAt(o, w, j)
  }

  lemma ExpandedExpands<W>(o: Ops<W>, m: seq<W>, n: nat)
    requires |m| == 16 && n == EXPANDED
    ensures Expands(o, Expanded(o, m, n)) && Expanded(o, m, n)[..16] == m
  {
    forall j: nat | 16 <= j < n ensures ExpandsAt(o, Expanded(o, m, n), j) { ExpandedAt(o, m, n, j); }
    forall j: nat | j < 16 ensures Expanded(o, m, n)[j] == m[j] { ExpandedAt(o, m, n, j); }
  }

  lemma Words16(o: Ops<bv32>, w: seq<bv32>)
    requires o == Program() && Expands(o, w) && Has(w, 0, 0x61626380, 0x00000000, 0x00000000, 0x00000000)
    requires Has(w, 4, 0x00000000, 0x00000000, 0x00000000, 0x00000000)
    requires Has(w, 8, 0x00000000, 0x00000000, 0x00000000, 0x00000000)
    requires Has(w, 12, 0x00000000, 0x00000000, 0x00000000, 0x00000018)
    ensures Has(w, 16, 0x9092e200, 0x00000000, 0x000c0606, 0x719c70ed)
  {
    assert ExpandsAt(o, w, 16) && ExpandsAt(o, w, 17) && ExpandsAt(o, w, 18) && ExpandsAt(o, w, 19);
  }

  lemma Words20(o: Ops<bv32>, w: seq<bv32>)
    requires o == Program() && Expands(o, w) && Has(w, 4, 0x00000000, 0x00000000, 0x00000000, 0x00000000)
    requires Has(w, 8, 0x00000000, 0x00000000, 0x00000000, 0x00000000)
    requires Has(w, 12, 0x00000000, 0x00000000, 0x00000000, 0x00000018)
    requires Has(w, 16, 0x9092e200, 0x00000000, 0x000c0606, 0x719c70ed)
    ensures Has(w, 20, 0x00000000, 0x8001801f, 0x939f7da9, 0x00000000)
  {
    assert ExpandsAt(o, w, 20) && ExpandsAt(o, w, 21) && ExpandsAt(o, w, 22) && ExpandsAt(o, w, 23);
  }

  lemma Words24(o: Ops<bv32>, w: seq<bv32>)
    requires o == Program() && Expands(o, w) && Has(w, 8, 0x00000000, 0x00000000, 0x00000000, 0x00000000)
    requires Has(w, 12, 0x00000000, 0x00000000, 0x00000000, 0x00000018)
    requires Has(w, 16, 0x9092e200, 0x00000000, 0x000c0606, 0x719c70ed)
    requires Has(w, 20, 0x00000000, 0x8001801f, 0x939f7da9, 0x00000000)
    ensures Has(w, 24, 0x2c6fa1f9, 0xadaaef14, 0x00000000, 0x0001801e)
  {
    assert ExpandsAt(o, w, 24) && ExpandsAt(o, w, 25) && ExpandsAt(o, w, 26) && ExpandsAt(o, w, 27);
  }

  lemma Words28(o: Ops<bv32>, w: seq<bv32>)
    requires o == Program() && Expands(o, w) && Has(w, 12, 0x00000000, 0x00000000, 0x00000000, 0x00000018)
    requires Has(w, 16, 0x9092e200, 0x00000000, 0x000c0606, 0x719c70ed)
    requires Has(w, 20, 0x00000000, 0x8001801f, 0x939f7da9, 0x00000000)
    requires Has(w, 24, 0x2c6fa1f9, 0xadaaef14, 0x00000000, 0x0001801e)
    ensures Has(w, 28, 0x9a965f89, 0x49710048, 0x23ce86a1, 0xb2d12f1b)
  {
    assert ExpandsAt(o, w, 28) && ExpandsAt(o, w, 29) && ExpandsAt(o, w, 30) && ExpandsAt(o, w, 31);
  }

  lemma Words32(o: Ops<bv32>, w: seq<bv32>)
    requires o == Program() && Expands(o, w) && Has(w, 16, 0x9092e200, 0x00000000, 0x000c0606, 0x719c70ed)
    requires Has(w, 20, 0x00000000, 0x8001801f, 0x939f7da9, 0x00000000)
    requires Has(w, 24, 0x2c6fa1f9, 0xadaaef14, 0x00000000, 0x0001801e)
    requires Has(w, 28, 0x9a965f89, 0x49710048, 0x23ce86a1, 0xb2d12f1b)
    ensures Has(w, 32, 0xe1dae338, 0xf8061807, 0x055d68be, 0x86cfd481)
  {
    assert ExpandsAt(o, w, 32) && ExpandsAt(o, w, 33) && ExpandsAt(o, w, 34) && ExpandsAt(o, w, 35);
  }

  lemma Words36(o: Ops<bv32>, w: seq<bv32>)
    requires o == Program() && Expands(o, w) && Has(w, 20, 0x00000000, 0x8001801f, 0x939f7da9, 0x00000000)
    requires Has(w, 24, 0x2c6fa1f9, 0xadaaef14, 0x00000000, 0x0001801e)
    requires Has(w, 28, 0x9a965f89, 0x49710048, 0x23ce86a1, 0xb2d12f1b)
    requires Has(w, 32, 0xe1dae338, 0xf8061807, 0x055d68be, 0x86cfd481)
    ensures Has(w, 36, 0x1f447d83, 0xd9023dbf, 0x185898e0, 0xe0061807)
  {
    assert ExpandsAt(o, w, 36) && ExpandsAt(o, w, 37) && ExpandsAt(o, w, 38) && ExpandsAt(o, w, 39);
  }

  lemma Words40(o: Ops<bv32>, w: seq<bv32>)
    requires o == Program() && Expands(o, w) && Has(w, 24, 0x2c6fa1f9, 0xadaaef14, 0x00000000, 0x0001801e)
    requires Has(w, 28, 0x9a965f89, 0x49710048, 0x23ce86a1, 0xb2d12f1b)
    requires Has(w, 32, 0xe1dae338, 0xf8061807, 0x055d68be, 0x86cfd481)
    requires Has(w, 36, 0x1f447d83, 0xd9023dbf, 0x185898e0, 0xe0061807)
    ensures Has(w, 40, 0x050df55c, 0xcde0104c, 0xa5b9c955, 0xa7df0184)
  {
    assert ExpandsAt(o, w, 40) && ExpandsAt(o, w, 41) && ExpandsAt(o, w, 42) && ExpandsAt(o, w, 43);
  }

  lemma Words44(o: Ops<bv32>, w: seq<bv32>)
    requires o == Program() && Expands(o, w) && Has(w, 28, 0x9a965f89, 0x49710048, 0x23ce86a1, 0xb2d12f1b)
    requires Has(w, 32, 0xe1dae338, 0xf8061807, 0x055d68be, 0x86cfd481)
    requires Has(w, 36, 0x1f447d83, 0xd9023dbf, 0x185898e0, 0xe0061807)
    requires Has(w, 40, 0x050df55c, 0xcde0104c, 0xa5b9c955, 0xa7df0184)
    ensures Has(w, 44, 0x6e46cd08, 0xe3babdf8, 0x70caa422, 0x0353af50)
  {
    assert ExpandsAt(o, w, 44) && ExpandsAt(o, w, 45) && ExpandsAt(o, w, 46) && ExpandsAt(o, w, 47);
  }

  lemma Words48(o: Ops<bv32>, w: seq<bv32>)
    requires o == Program() && Expands(o, w) && Has(w, 32, 0xe1dae338, 0xf8061807, 0x055d68be, 0x86cfd481)
    requires Has(w, 36, 0x1f447d83, 0xd9023dbf, 0x185898e0, 0xe0061807)
    requires Has(w, 40, 0x050df55c, 0xcde0104c, 0xa5b9c955, 0xa7df0184)
    requires Has(w, 44, 0x6e46cd08, 0xe3babdf8, 0x70caa422, 0x0353af50)
    ensures Has(w, 48, 0xa92dbca1, 0x5f33cfd2, 0xe16f6e89, 0xf70fe941)
  {
    assert ExpandsAt(o, w, 48) && ExpandsAt(o, w, 49) && ExpandsAt(o, w, 50) && ExpandsAt(o, w, 51);
  }

  lemma Words52(o: Ops<bv32>, w: seq<bv32>)
    requires o == Program() && Expands(o, w) && Has(w, 36, 0x1f447d83, 0xd9023dbf, 0x185898e0, 0xe0061807)
    requires Has(w, 40, 0x050df55c, 0xcde0104c, 0xa5b9c955, 0xa7df0184)
    requires Has(w, 44, 0x6e46cd08, 0xe3babdf8, 0x70caa422, 0x0353af50)
    requires Has(w, 48, 0xa92dbca1, 0x5f33cfd2, 0xe16f6e89, 0xf70fe941)
    ensures Has(w, 52, 0xca5462dc, 0x85a90152, 0x76af6296, 0xc922bdb2)
  {
    assert ExpandsAt(o, w, 52) && ExpandsAt(o, w, 53) && ExpandsAt(o, w, 54) && ExpandsAt(o, w, 55);
  }

  lemma Words56(o: Ops<bv32>, w: seq<bv32>)
    requires o == Program() && Expands(o, w) && Has(w, 40, 0x050df55c, 0xcde0104c, 0xa5b9c955, 0xa7df0184)
    requires Has(w, 44, 0x6e46cd08, 0xe3babdf8, 0x70caa422, 0x0353af50)
    requires Has(w, 48, 0xa92dbca1, 0x5f33cfd2, 0xe16f6e89, 0xf70fe941)
    requires Has(w, 52, 0xca5462dc, 0x85a90152, 0x76af6296, 0xc922bdb2)
    ensures Has(w, 56, 0x68378cf5, 0x97585344, 0x09008723, 0x86faee74)
  {
    assert ExpandsAt(o, w, 56) && ExpandsAt(o, w, 57) && ExpandsAt(o, w, 58) && ExpandsAt(o, w, 59);
  }

  lemma Words60(o: Ops<bv32>, w: seq<bv32>)
    requires o == Program() && Expands(o, w) && Has(w, 44, 0x6e46cd08, 0xe3babdf8, 0x70caa422, 0x0353af50)
    requires Has(w, 48, 0xa92dbca1, 0x5f33cfd2, 0xe16f6e89, 0xf70fe941)
    requires Has(w, 52, 0xca5462dc, 0x85a90152, 0x76af6296, 0xc922bdb2)
    requires Has(w, 56, 0x68378cf5, 0x97585344, 0x09008723, 0x86faee74)
    ensures Has(w, 60, 0x2ab908b0, 0x4a64bc50, 0x864e6e08, 0xf07e6590)
  {
    assert ExpandsAt(o, w, 60) && ExpandsAt(o, w, 61) && ExpandsAt(o, w, 62) && ExpandsAt(o, w, 63);
  }

  lemma Words64(o: Ops<bv32>, w: seq<bv32>)
    requires o == Program() && Expands(o, w) && Has(w, 48, 0xa92dbca1, 0x5f33cfd2, 0xe16f6e89, 0xf70fe941)
    requires Has(w, 52, 0xca5462dc, 0x85a90152, 0x76af6296, 0xc922bdb2)
    requires Has(w, 56, 0x68378cf5, 0x97585344, 0x09008723, 0x86faee74)
    requires Has(w, 60, 0x2ab908b0, 0x4a64bc50, 0x864e6e08, 0xf07e6590)
    ensures Has(w, 64, 0x325c8f78, 0xaccb8011, 0xe11db9dd, 0xb99c0545)
  {
    assert ExpandsAt(o, w, 64) && ExpandsAt(o, w, 65) && ExpandsAt(o, w, 66) && ExpandsAt(o, w, 67);
  }

  // ----- the rounds -----

  /** One round, with the constant as the program turns it. */
  lemma Go<W(!new)>(o: Ops<W>, v: Regs<W>, w: seq<W>, j: nat, r: Regs<W>, t0: W, t: W, wj: W, w1: W, s: Regs<W>)
    requires Turns(o) && AtRound(o, v, w, j, r) && j + 5 <= |w| && (j > 0 ==> IsTurned(o, j - 1, t0))
    requires t == if j == 0 then o.t1 else if j == 16 then o.rot16(o.t2) else o.rot1(t0)
    requires w[j] == wj && w1 == o.xor(wj, w[j + 4]) && s == Round(o, r, j, t, wj, w1)
    ensures AtRound(o, v, w, j + 1, s) && IsTurned(o, j, t)
  {
    if j == 0 {
      assert TurnedIs(o, j, t);
    } else if j == 16 {
      TurnHalf(o, j);
    } else {
      TurnOnce(o, j, t0);
    }
    RoundStep(o, v, w, j, r, t, w1);
  }

  lemma Rounds0(o: Ops<bv32>, v: Regs<bv32>, w: seq<bv32>, r0: Regs<bv32>)
    requires o == Program() && Turns(o)
    requires Has(w, 0, 0x61626380, 0x00000000, 0x00000000, 0x00000000)
    requires Has(w, 4, 0x00000000, 0x00000000, 0x00000000, 0x00000000)
    requires Has(w, 8, 0x00000000, 0x00000000, 0x00000000, 0x00000000)
    requires r0 == Regs(0x7380166f, 0x4914b2b9, 0x172442d7, 0xda8a0600,
      0xa96f30bc, 0x163138aa, 0xe38dee4d, 0xb0fb0e4e)
    requires AtRound(o, v, w, 0, r0)
    ensures IsTurned(o, 7, 0xe6228cbc)
    ensures AtRound(o, v, w, 8, Regs(0x1022ac97, 0x33130100, 0x94194e6e, 0x32aecc3f,
      0x367250a1, 0x3391ec8a, 0xb1cd6787, 0x97545690))
  {
    var r1 := Regs(0xb9edc12b, 0x7380166f, 0x29657292, 0x172442d7,
      0xb2ad29f4, 0xa96f30bc, 0xc550b189, 0xe38dee4d);
    Go(o, v, w, 0, r0, 0x00000000, 0x79cc4519, 0x61626380, 0x61626380, r1);
    var r2 := Regs(0xea52428c, 0xb9edc12b, 0x002cdee7, 0x29657292,
      0xac353a23, 0xb2ad29f4, 0x85e54b79, 0xc550b189);
    Go(o, v, w, 1, r1, 0x79cc4519, 0xf3988a32, 0x00000000, 0x00000000, r2);
    var r3 := Regs(0x609f2850, 0xea52428c, 0xdb825773, 0x002cdee7,
      0xd33ad5fb, 0xac353a23, 0x4fa59569, 0x85e54b79);
    Go(o, v, w, 2, r2, 0xf3988a32, 0xe7311465, 0x00000000, 0x00000000, r3);
    var r4 := Regs(0x35037e59, 0x609f2850, 0xa48519d4, 0xdb825773,
      0xb8204b5f, 0xd33ad5fb, 0xd11d61a9, 0x4fa59569);
    Go(o, v, w, 3, r3, 0xe7311465, 0xce6228cb, 0x00000000, 0x00000000, r4);
    var r5 := Regs(0x1f995766, 0x35037e59, 0x3e50a0c1, 0xa48519d4,
      0x8ad212ea, 0xb8204b5f, 0xafde99d6, 0xd11d61a9);
    Go(o, v, w, 4, r4, 0xce6228cb, 0x9cc45197, 0x00000000, 0x00000000, r5);
    var r6 := Regs(0x374a0ca7, 0x1f995766, 0x06fcb26a, 0x3e50a0c1,
      0xacf0f639, 0x8ad212ea, 0x5afdc102, 0xafde99d6);
    Go(o, v, w, 5, r5, 0x9cc45197, 0x3988a32f, 0x00000000, 0x00000000, r6);
    var r7 := Regs(0x33130100, 0x374a0ca7, 0x32aecc3f, 0x06fcb26a,
      0x3391ec8a, 0xacf0f639, 0x97545690, 0x5afdc102);
    Go(o, v, w, 6, r6, 0x3988a32f, 0x7311465e, 0x00000000, 0x00000000, r7);
    var r8 := Regs(0x1022ac97, 0x33130100, 0x94194e6e, 0x32aecc3f,
      0x367250a1, 0x3391ec8a, 0xb1cd6787, 0x97545690);
    Go(o, v, w, 7, r7, 0x7311465e, 0xe6228cbc, 0x00000000, 0x00000000, r8);
  }

  lemma Rounds8(o: Ops<bv32>, v: Regs<bv32>, w: seq<bv32>, r8: Regs<bv32>)
    requires o == Program() && Turns(o) && IsTurned(o, 7, 0xe6228cbc)
    requires Has(w, 8, 0x00000000, 0x00000000, 0x00000000, 0x00000000)
    requires Has(w, 12, 0x00000000, 0x00000000, 0x00000000, 0x00000018)
    requires Has(w, 16, 0x9092e200, 0x00000000, 0x000c0606, 0x719c70ed)
    requires r8 == Regs(0x1022ac97, 0x33130100, 0x94194e6e, 0x32aecc3f,
      0x367250a1, 0x3391ec8a, 0xb1cd6787, 0x97545690)
    requires AtRound(o, v, w, 8, r8)
    ensures IsTurned(o, 15, 0x228cbce6)
    ensures AtRound(o, v, w, 16, Regs(0x34d1691e, 0x7c529778, 0x92b57849, 0x979ab113,
      0x61f99646, 0x3ee95933, 0x2aa0d251, 0xdb131b86))
  {
    var r9 := Regs(0xd47caf4c, 0x1022ac97, 0x26020066, 0x94194e6e,
      0x6ad473a4, 0x367250a1, 0x64519c8f, 0xb1cd6787);
    Go(o, v, w, 8, r8, 0xe6228cbc, 0xcc451979, 0x00000000, 0x00000000, r9);
    var r10 := Regs(0x59c2744b, 0xd47caf4c, 0x45592e20, 0x26020066,
      0xc6a3ceae, 0x6ad473a4, 0x8509b392, 0x64519c8f);
    Go(o, v, w, 9, r9, 0xcc451979, 0x988a32f3, 0x00000000, 0x00000000, r10);
    var r11 := Regs(0x481ba2a0, 0x59c2744b, 0xf95e99a8, 0x45592e20,
      0x02afb727, 0xc6a3ceae, 0x9d2356a3, 0x8509b392);
    Go(o, v, w, 10, r10, 0x988a32f3, 0x311465e7, 0x00000000, 0x00000000, r11);
    var r12 := Regs(0x694a3d09, 0x481ba2a0, 0x84e896b3, 0xf95e99a8,
      0x9dd1b58c, 0x02afb727, 0x7576351e, 0x9d2356a3);
    Go(o, v, w, 11, r11, 0x311465e7, 0x6228cbce, 0x00000000, 0x00000018, r12);
    var r13 := Regs(0x89cbcd58, 0x694a3d09, 0x37454090, 0x84e896b3,
      0x6370db62, 0x9dd1b58c, 0xb938157d, 0x7576351e);
    Go(o, v, w, 12, r12, 0x6228cbce, 0xc451979c, 0x00000000, 0x9092e200, r13);
    var r14 := Regs(0x24c95abc, 0x89cbcd58, 0x947a12d2, 0x37454090,
      0x1a4a2554, 0x6370db62, 0xac64ee8d, 0xb938157d);
    Go(o, v, w, 13, r13, 0xc451979c, 0x88a32f39, 0x00000000, 0x00000000, r14);
    var r15 := Regs(0x7c529778, 0x24c95abc, 0x979ab113, 0x947a12d2,
      0x3ee95933, 0x1a4a2554, 0xdb131b86, 0xac64ee8d);
    Go(o, v, w, 14, r14, 0x88a32f39, 0x11465e73, 0x00000000, 0x000c0606, r15);
    var r16 := Regs(0x34d1691e, 0x7c529778, 0x92b57849, 0x979ab113,
      0x61f99646, 0x3ee95933, 0x2aa0d251, 0xdb131b86);
    Go(o, v, w, 15, r15, 0x11465e73, 0x228cbce6, 0x00000018, 0x719c70f5, r16);
  }

  lemma Rounds16(o: Ops<bv32>, v: Regs<bv32>, w: seq<bv32>, r16: Regs<bv32>)
    requires o == Program() && Turns(o) && IsTurned(o, 15, 0x228cbce6)
    requires Has(w, 16, 0x9092e200, 0x00000000, 0x000c0606, 0x719c70ed)
    requires Has(w, 20, 0x00000000, 0x8001801f, 0x939f7da9, 0x00000000)
    requires Has(w, 24, 0x2c6fa1f9, 0xadaaef14, 0x00000000, 0x0001801e)
    requires r16 == Regs(0x34d1691e, 0x7c529778, 0x92b57849, 0x979ab113,
      0x61f99646, 0x3ee95933, 0x2aa0d251, 0xdb131b86)
    requires AtRound(o, v, w, 16, r16)
    ensures IsTurned(o, 23, 0xc53d43ce)
    ensures AtRound(o, v, w, 24, Regs(0xf368da78, 0xeeeec41a, 0x185f9a9a, 0x8af12c05,
      0x6a879032, 0xb5523911, 0xe84abb78, 0x340ba2bb))
  {
    var r17 := Regs(0x796afab1, 0x34d1691e, 0xa52ef0f8, 0x92b57849,
      0x067550f5, 0x61f99646, 0xc999f74a, 0x2aa0d251);
    Go(o, v, w, 16, r16, 0x228cbce6, 0x9d8a7a87, 0x9092e200, 0x9092e200, r17);
    var r18 := Regs(0x7d27cc0e, 0x796afab1, 0xa2d23c69, 0xa52ef0f8,
      0xb3c8669b, 0x067550f5, 0xb2330fcc, 0xc999f74a);
    Go(o, v, w, 17, r17, 0x9d8a7a87, 0x3b14f50f, 0x00000000, 0x8001801f, r18);
    var r19 := Regs(0xd7820ad1, 0x7d27cc0e, 0xd5f562f2, 0xa2d23c69,
      0x575c37d8, 0xb3c8669b, 0x87a833aa, 0xb2330fcc);
    Go(o, v, w, 18, r18, 0x3b14f50f, 0x7629ea1e, 0x000c0606, 0x93937baf, r19);
    var r20 := Regs(0xf84fd372, 0xd7820ad1, 0x4f981cfa, 0xd5f562f2,
      0xa5dceaf1, 0x575c37d8, 0x34dd9e43, 0x87a833aa);
    Go(o, v, w, 19, r19, 0x7629ea1e, 0xec53d43c, 0x719c70ed, 0x719c70ed, r20);
    var r21 := Regs(0x02c57896, 0xf84fd372, 0x0415a3af, 0x4f981cfa,
      0x74576681, 0xa5dceaf1, 0xbec2bae1, 0x34dd9e43);
    Go(o, v, w, 20, r20, 0xec53d43c, 0xd8a7a879, 0x00000000, 0x2c6fa1f9, r21);
    var r22 := Regs(0x4d0c2fcd, 0x02c57896, 0x9fa6e5f0, 0x0415a3af,
      0x576f1d09, 0x74576681, 0x578d2ee7, 0xbec2bae1);
    Go(o, v, w, 21, r21, 0xd8a7a879, 0xb14f50f3, 0x8001801f, 0x2dab6f0b, r22);
    var r23 := Regs(0xeeeec41a, 0x4d0c2fcd, 0x8af12c05, 0x9fa6e5f0,
      0xb5523911, 0x576f1d09, 0x340ba2bb, 0x578d2ee7);
    Go(o, v, w, 22, r22, 0xb14f50f3, 0x629ea1e7, 0x939f7da9, 0x939f7da9, r23);
    var r24 := Regs(0xf368da78, 0xeeeec41a, 0x185f9a9a, 0x8af12c05,
      0x6a879032, 0xb5523911, 0xe84abb78, 0x340ba2bb);
    Go(o, v, w, 23, r23, 0x629ea1e7, 0xc53d43ce, 0x00000000, 0x0001801e, r24);
  }

  lemma Rounds24(o: Ops<bv32>, v: Regs<bv32>, w: seq<bv32>, r24: Regs<bv32>)
    requires o == Program() && Turns(o) && IsTurned(o, 23, 0xc53d43ce)
    requires Has(w, 24, 0x2c6fa1f9, 0xadaaef14, 0x00000000, 0x0001801e)
    requires Has(w, 28, 0x9a965f89, 0x49710048, 0x23ce86a1, 0xb2d12f1b)
    requires Has(w, 32, 0xe1dae338, 0xf8061807, 0x055d68be, 0x86cfd481)
    requires r24 == Regs(0xf368da78, 0xeeeec41a, 0x185f9a9a, 0x8af12c05,
      0x6a879032, 0xb5523911, 0xe84abb78, 0x340ba2bb)
    requires AtRound(o, v, w, 24, r24)
    ensures IsTurned(o, 31, 0x3d43cec5)
    ensures AtRound(o, v, w, 32, Regs(0x89a13e59, 0xa5a4a2b3, 0x37593bff, 0x3d708fc2,
      0x0a1ff572, 0xe92df4ea, 0xa36cc08d, 0x74b72db2))
  {
    var r25 := Regs(0x15ce1286, 0xf368da78, 0xdd8835dd, 0x185f9a9a,
      0x62063354, 0x6a879032, 0xc88daa91, 0xe84abb78);
    Go(o, v, w, 24, r24, 0xc53d43ce, 0x8a7a879d, 0x2c6fa1f9, 0xb6f9fe70, r25);
    var r26 := Regs(0xc3fd31c2, 0x15ce1286, 0xd1b4f1e6, 0xdd8835dd,
      0x4db58f43, 0x62063354, 0x8193543c, 0xc88daa91);
    Go(o, v, w, 25, r25, 0x8a7a879d, 0x14f50f3b, 0xadaaef14, 0xe4dbef5c, r26);
    var r27 := Regs(0x6243be5e, 0xc3fd31c2, 0x9c250c2b, 0xd1b4f1e6,
      0x131152fe, 0x4db58f43, 0x9aa31031, 0x8193543c);
    Go(o, v, w, 26, r26, 0x14f50f3b, 0x29ea1e76, 0x00000000, 0x23ce86a1, r27);
    var r28 := Regs(0xa549beaa, 0x6243be5e, 0xfa638587, 0x9c250c2b,
      0xcf65e309, 0x131152fe, 0x7a1a6dac, 0x9aa31031);
    Go(o, v, w, 27, r27, 0x29ea1e76, 0x53d43cec, 0x0001801e, 0xb2d0af05, r28);
    var r29 := Regs(0xe11eb847, 0xa549beaa, 0x877cbcc4, 0xfa638587,
      0xe5b64e96, 0xcf65e309, 0x97f0988a, 0x7a1a6dac);
    Go(o, v, w, 28, r28, 0x53d43cec, 0xa7a879d8, 0x9a965f89, 0x7b4cbcb1, r29);
    var r30 := Regs(0xff9bac9d, 0xe11eb847, 0x937d554a, 0x877cbcc4,
      0x9811b46d, 0xe5b64e96, 0x184e7b2f, 0x97f0988a);
    Go(o, v, w, 29, r29, 0xa7a879d8, 0x4f50f3b1, 0x49710048, 0xb177184f, r30);
    var r31 := Regs(0xa5a4a2b3, 0xff9bac9d, 0x3d708fc2, 0x937d554a,
      0xe92df4ea, 0x9811b46d, 0x74b72db2, 0x184e7b2f);
    Go(o, v, w, 30, r30, 0x4f50f3b1, 0x9ea1e762, 0x23ce86a1, 0x2693ee1f, r31);
    var r32 := Regs(0x89a13e59, 0xa5a4a2b3, 0x37593bff, 0x3d708fc2,
      0x0a1ff572, 0xe92df4ea, 0xa36cc08d, 0x74b72db2);
    Go(o, v, w, 31, r31, 0x9ea1e762, 0x3d43cec5, 0xb2d12f1b, 0x341efb9a, r32);
  }

  lemma Rounds32(o: Ops<bv32>, v: Regs<bv32>, w: seq<bv32>, r32: Regs<bv32>)
    requires o == Program() && Turns(o) && IsTurned(o, 31, 0x3d43cec5)
    requires Has(w, 32, 0xe1dae338, 0xf8061807, 0x055d68be, 0x86cfd481)
    requires Has(w, 36, 0x1f447d83, 0xd9023dbf, 0x185898e0, 0xe0061807)
    requires Has(w, 40, 0x050df55c, 0xcde0104c, 0xa5b9c955, 0xa7df0184)
    requires r32 == Regs(0x89a13e59, 0xa5a4a2b3, 0x37593bff, 0x3d708fc2,
      0x0a1ff572, 0xe92df4ea, 0xa36cc08d, 0x74b72db2)
    requires AtRound(o, v, w, 32, r32)
    ensures IsTurned(o, 39, 0x43cec53d)
    ensures AtRound(o, v, w, 40, Regs(0x19f363f9, 0x2f13c4ad, 0x4a0b31ce, 0x85ae57c2,
      0xc302badb, 0x1a6cabc9, 0xfe9e3fc9, 0xac36a284))
  {
    var r33 := Regs(0x3720bd4e, 0x89a13e59, 0x4945674b, 0x37593bff,
      0xcf7d1683, 0x0a1ff572, 0xa757496f, 0xa36cc08d);
    Go(o, v, w, 32, r32, 0x3d43cec5, 0x7a879d8a, 0xe1dae338, 0xfe9e9ebb, r33);
    var r34 := Regs(0x9ccd089c, 0x3720bd4e, 0x427cb313, 0x4945674b,
      0xda8c835f, 0xcf7d1683, 0xab9050ff, 0xa757496f);
    Go(o, v, w, 33, r33, 0x7a879d8a, 0xf50f3b14, 0xf8061807, 0x210425b8, r34);
    var r35 := Regs(0xc7a0744d, 0x9ccd089c, 0x417a9c6e, 0x427cb313,
      0x0958ff1b, 0xda8c835f, 0xb41e7be8, 0xab9050ff);
    Go(o, v, w, 34, r34, 0xf50f3b14, 0xea1e7629, 0x055d68be, 0x1d05f05e, r35);
    var r36 := Regs(0xd955c3ed, 0xc7a0744d, 0x9a113939, 0x417a9c6e,
      0xc533f0ff, 0x0958ff1b, 0x1afed464, 0xb41e7be8);
    Go(o, v, w, 35, r35, 0xea1e7629, 0xd43cec53, 0x86cfd481, 0x66c9cc86, r36);
    var r37 := Regs(0xe142d72b, 0xd955c3ed, 0x40e89b8f, 0x9a113939,
      0xd4509586, 0xc533f0ff, 0xf8d84ac7, 0x1afed464);
    Go(o, v, w, 36, r36, 0xd43cec53, 0xa879d8a7, 0x1f447d83, 0x1a4988df, r37);
    var r38 := Regs(0xe7250598, 0xe142d72b, 0xab87dbb2, 0x40e89b8f,
      0xc7f93fd3, 0xd4509586, 0x87fe299f, 0xf8d84ac7);
    Go(o, v, w, 37, r37, 0xa879d8a7, 0x50f3b14f, 0xd9023dbf, 0x14e22df3, r38);
    var r39 := Regs(0x2f13c4ad, 0xe7250598, 0x85ae57c2, 0xab87dbb2,
      0x1a6cabc9, 0xc7f93fd3, 0xac36a284, 0x87fe299f);
    Go(o, v, w, 38, r38, 0x50f3b14f, 0xa1e7629e, 0x185898e0, 0xbde151b5, r39);
    var r40 := Regs(0x19f363f9, 0x2f13c4ad, 0x4a0b31ce, 0x85ae57c2,
      0xc302badb, 0x1a6cabc9, 0xfe9e3fc9, 0xac36a284);
    Go(o, v, w, 39, r39, 0xa1e7629e, 0x43cec53d, 0xe0061807, 0x47d91983, r40);
  }

  lemma Rounds40(o: Ops<bv32>, v: Regs<bv32>, w: seq<bv32>, r40: Regs<bv32>)
    requires o == Program() && Turns(o) && IsTurned(o, 39, 0x43cec53d)
    requires Has(w, 40, 0x050df55c, 0xcde0104c, 0xa5b9c955, 0xa7df0184)
    requires Has(w, 44, 0x6e46cd08, 0xe3babdf8, 0x70caa422, 0x0353af50)
    requires Has(w, 48, 0xa92dbca1, 0x5f33cfd2, 0xe16f6e89, 0xf70fe941)
    requires r40 == Regs(0x19f363f9, 0x2f13c4ad, 0x4a0b31ce, 0x85ae57c2,
      0xc302badb, 0x1a6cabc9, 0xfe9e3fc9, 0xac36a284)
    requires AtRound(o, v, w, 40, r40)
    ensures IsTurned(o, 47, 0xcec53d43)
    ensures AtRound(o, v, w, 48, Regs(0x47c5be50, 0xe51076b3, 0x12150da4, 0xd0b273b0,
      0x3567734e, 0xd9f89e61, 0xb1297299, 0xefac7743))
  {
    var r41 := Regs(0x55e1dde2, 0x19f363f9, 0x27895a5e, 0x4a0b31ce,
      0x459daccf, 0xc302badb, 0x5e48d365, 0xfe9e3fc9);
    Go(o, v, w, 40, r40, 0x43cec53d, 0x879d8a7a, 0x050df55c, 0x6b4b3854, r41);
    var r42 := Regs(0xd4f4efe3, 0x55e1dde2, 0xe6c7f233, 0x27895a5e,
      0x5cfba85a, 0x459daccf, 0xd6de1815, 0x5e48d365);
    Go(o, v, w, 41, r41, 0x879d8a7a, 0x0f3b14f5, 0xcde0104c, 0x2e5aadb4, r42);
    var r43 := Regs(0x48dcbc62, 0xd4f4efe3, 0xc3bbc4ab, 0xe6c7f233,
      0x6f49c7bb, 0x5cfba85a, 0x667a2ced, 0xd6de1815);
    Go(o, v, w, 42, r42, 0x0f3b14f5, 0x1e7629ea, 0xa5b9c955, 0xd5736d77, r43);
    var r44 := Regs(0x8237b8a0, 0x48dcbc62, 0xe9dfc7a9, 0xc3bbc4ab,
      0xd89d2711, 0x6f49c7bb, 0x42d2e7dd, 0x667a2ced);
    Go(o, v, w, 43, r43, 0x1e7629ea, 0x3cec53d4, 0xa7df0184, 0xa48caed4, r44);
    var r45 := Regs(0xd8685939, 0x8237b8a0, 0xb978c491, 0xe9dfc7a9,
      0x8ee87df5, 0xd89d2711, 0x3ddb7a4e, 0x42d2e7dd);
    Go(o, v, w, 44, r44, 0x3cec53d4, 0x79d8a7a8, 0x6e46cd08, 0xc76b71a9, r45);
    var r46 := Regs(0xd2090a86, 0xd8685939, 0x6f714104, 0xb978c491,
      0x2e533625, 0x8ee87df5, 0x388ec4e9, 0x3ddb7a4e);
    Go(o, v, w, 45, r45, 0x79d8a7a8, 0xf3b14f50, 0xe3babdf8, 0xbc89722a, r46);
    var r47 := Regs(0xe51076b3, 0xd2090a86, 0xd0b273b0, 0x6f714104,
      0xd9f89e61, 0x2e533625, 0xefac7743, 0x388ec4e9);
    Go(o, v, w, 46, r46, 0xf3b14f50, 0xe7629ea1, 0x70caa422, 0x91a5caab, r47);
    var r48 := Regs(0x47c5be50, 0xe51076b3, 0x12150da4, 0xd0b273b0,
      0x3567734e, 0xd9f89e61, 0xb1297299, 0xefac7743);
    Go(o, v, w, 47, r47, 0xe7629ea1, 0xcec53d43, 0x0353af50, 0xf45c4611, r48);
  }

  lemma Rounds48(o: Ops<bv32>, v: Regs<bv32>, w: seq<bv32>, r48: Regs<bv32>)
    requires o == Program() && Turns(o) && IsTurned(o, 47, 0xcec53d43)
    requires Has(w, 48, 0xa92dbca1, 0x5f33cfd2, 0xe16f6e89, 0xf70fe941)
    requires Has(w, 52, 0xca5462dc, 0x85a90152, 0x76af6296, 0xc922bdb2)
    requires Has(w, 56, 0x68378cf5, 0x97585344, 0x09008723, 0x86faee74)
    requires r48 == Regs(0x47c5be50, 0xe51076b3, 0x12150da4, 0xd0b273b0,
      0x3567734e, 0xd9f89e61, 0xb1297299, 0xefac7743)
    requires AtRound(o, v, w, 48, r48)
    ensures IsTurned(o, 55, 0xc53d43ce)
    ensures AtRound(o, v, w, 56, Regs(0x22a79585, 0x549db4b7, 0x825d05e8, 0x01da5e94,
      0x9d4db19a, 0xf6bc15ed, 0x03e3a14c, 0xb3a83a0f))
  {
    var r49 := Regs(0xabddbdc8, 0x47c5be50, 0x20ed67ca, 0x12150da4,
      0x3dfcdd11, 0x3567734e, 0xf30ecfc4, 0xb1297299);
    Go(o, v, w, 48, r48, 0xcec53d43, 0x9d8a7a87, 0xa92dbca1, 0x6379de7d, r49);
    var r50 := Regs(0xbd708003, 0xabddbdc8, 0x8b7ca08f, 0x20ed67ca,
      0x93494bc0, 0x3dfcdd11, 0x9a71ab3b, 0xf30ecfc4);
    Go(o, v, w, 49, r49, 0x9d8a7a87, 0x3b14f50f, 0x5f33cfd2, 0xda9ace80, r50);
    var r51 := Regs(0x15e2f5d3, 0xbd708003, 0xbb7b9157, 0x8b7ca08f,
      0xc3956c3f, 0x93494bc0, 0xe889efe6, 0x9a71ab3b);
    Go(o, v, w, 50, r50, 0x3b14f50f, 0x7629ea1e, 0xe16f6e89, 0x97c00c1f, r51);
    var r52 := Regs(0x13826486, 0x15e2f5d3, 0xe100077a, 0xbb7b9157,
      0xcd09a51c, 0xc3956c3f, 0x5e049a4a, 0xe889efe6);
    Go(o, v, w, 51, r51, 0x7629ea1e, 0xec53d43c, 0xf70fe941, 0x3e2d54f3, r52);
    var r53 := Regs(0x4a00ed2f, 0x13826486, 0xc5eba62b, 0xe100077a,
      0x0741f675, 0xcd09a51c, 0x61fe1cab, 0x5e049a4a);
    Go(o, v, w, 52, r52, 0xec53d43c, 0xd8a7a879, 0xca5462dc, 0xa263ee29, r53);
    var r54 := Regs(0xf4412e82, 0x4a00ed2f, 0x04c90c27, 0xc5eba62b,
      0x7429807c, 0x0741f675, 0x28e6684d, 0x61fe1cab);
    Go(o, v, w, 53, r53, 0xd8a7a879, 0xb14f50f3, 0x85a90152, 0x12f15216, r54);
    var r55 := Regs(0x549db4b7, 0xf4412e82, 0x01da5e94, 0x04c90c27,
      0xf6bc15ed, 0x7429807c, 0xb3a83a0f, 0x28e6684d);
    Go(o, v, w, 54, r54, 0xb14f50f3, 0x629ea1e7, 0x76af6296, 0x7fafe5b5, r55);
    var r56 := Regs(0x22a79585, 0x549db4b7, 0x825d05e8, 0x01da5e94,
      0x9d4db19a, 0xf6bc15ed, 0x03e3a14c, 0xb3a83a0f);
    Go(o, v, w, 55, r55, 0x629ea1e7, 0xc53d43ce, 0xc922bdb2, 0x4fd853c6, r56);
  }

  lemma Rounds56(o: Ops<bv32>, v: Regs<bv32>, w: seq<bv32>, r56: Regs<bv32>)
    requires o == Program() && Turns(o) && IsTurned(o, 55, 0xc53d43ce)
    requires Has(w, 56, 0x68378cf5, 0x97585344, 0x09008723, 0x86faee74)
    requires Has(w, 60, 0x2ab908b0, 0x4a64bc50, 0x864e6e08, 0xf07e6590)
    requires Has(w, 64, 0x325c8f78, 0xaccb8011, 0xe11db9dd, 0xb99c0545)
    requires r56 == Regs(0x22a79585, 0x549db4b7, 0x825d05e8, 0x01da5e94,
      0x9d4db19a, 0xf6bc15ed, 0x03e3a14c, 0xb3a83a0f)
    requires AtRound(o, v, w, 56, r56)
    ensures IsTurned(o, 63, 0x3d43cec5)
    ensures AtRound(o, v, w, 64, Regs(0x1547e69b, 0x2bfa5f60, 0xc6d696bc, 0x069ae2e2,
      0xe808f43b, 0x4ac3cf08, 0xcaf04e66, 0x3fb0a6ae))
  {
    var r57 := Regs(0x30245b78, 0x22a79585, 0x3b696ea9, 0x825d05e8,
      0xf6804c82, 0x9d4db19a, 0xaf6fb5e0, 0x03e3a14c);
    Go(o, v, w, 56, r56, 0xc53d43ce, 0x8a7a879d, 0x68378cf5, 0x428e8445, r57);
    var r58 := Regs(0x6598314f, 0x30245b78, 0x4f2b0a45, 0x3b696ea9,
      0xf522adb2, 0xf6804c82, 0x8cd4ea6d, 0xaf6fb5e0);
    Go(o, v, w, 57, r57, 0x8a7a879d, 0x14f50f3b, 0x97585344, 0xdd3cef14, r58);
    var r59 := Regs(0xc3d629a9, 0x6598314f, 0x48b6f060, 0x4f2b0a45,
      0x14fb0764, 0xf522adb2, 0x6417b402, 0x8cd4ea6d);
    Go(o, v, w, 58, r58, 0x14f50f3b, 0x29ea1e76, 0x09008723, 0x8f4ee92b, r59);
    var r60 := Regs(0xddb0a26a, 0xc3d629a9, 0x30629ecb, 0x48b6f060,
      0x589f7d5c, 0x14fb0764, 0x6d97a915, 0x6417b402);
    Go(o, v, w, 59, r59, 0x29ea1e76, 0x53d43cec, 0x86faee74, 0x76848be4, r60);
    var r61 := Regs(0x71034d71, 0xddb0a26a, 0xac535387, 0x30629ecb,
      0x14d5c7f6, 0x589f7d5c, 0x3b20a7d8, 0x6d97a915);
    Go(o, v, w, 60, r60, 0x53d43cec, 0xa7a879d8, 0x2ab908b0, 0x18e587c8, r61);
    var r62 := Regs(0x5e636b4b, 0x71034d71, 0x6144d5bb, 0xac535387,
      0x09ccd95e, 0x14d5c7f6, 0xeae2c4fb, 0x3b20a7d8);
    Go(o, v, w, 61, r61, 0xa7a879d8, 0x4f50f3b1, 0x4a64bc50, 0xe6af3c41, r62);
    var r63 := Regs(0x2bfa5f60, 0x5e636b4b, 0x069ae2e2, 0x6144d5bb,
      0x4ac3cf08, 0x09ccd95e, 0x3fb0a6ae, 0xeae2c4fb);
    Go(o, v, w, 62, r62, 0x4f50f3b1, 0x9ea1e762, 0x864e6e08, 0x6753d7d5, r63);
    var r64 := Regs(0x1547e69b, 0x2bfa5f60, 0xc6d696bc, 0x069ae2e2,
      0xe808f43b, 0x4ac3cf08, 0xcaf04e66, 0x3fb0a6ae);
    Go(o, v, w, 63, r63, 0x9ea1e762, 0x3d43cec5, 0xf07e6590, 0x49e260d5, r64);
  }

  // ----- the digest -----

  lemma AllWords(o: Ops<bv32>, w: seq<bv32>)
    requires o == Program() && Expands(o, w)
    requires Has(w, 0, 0x61626380, 0x00000000, 0x00000000, 0x00000000) && |w| == EXPANDED
    requires Has(w, 4, 0x00000000, 0x00000000, 0x00000000, 0x00000000)
    requires Has(w, 8, 0x00000000, 0x00000000, 0x00000000, 0x00000000)
    requires Has(w, 12, 0x00000000, 0x00000000, 0x00000000, 0x00000018)
    ensures Has(w, 16, 0x9092e200, 0x00000000, 0x000c0606, 0x719c70ed)
    ensures Has(w, 20, 0x00000000, 0x8001801f, 0x939f7da9, 0x00000000)
    ensures Has(w, 24, 0x2c6fa1f9, 0xadaaef14, 0x00000000, 0x0001801e)
    ensures Has(w, 28, 0x9a965f89, 0x49710048, 0x23ce86a1, 0xb2d12f1b)
    ensures Has(w, 32, 0xe1dae338, 0xf8061807, 0x055d68be, 0x86cfd481)
    ensures Has(w, 36, 0x1f447d83, 0xd9023dbf, 0x185898e0, 0xe0061807)
    ensures Has(w, 40, 0x050df55c, 0xcde0104c, 0xa5b9c955, 0xa7df0184)
    ensures Has(w, 44, 0x6e46cd08, 0xe3babdf8, 0x70caa422, 0x0353af50)
    ensures Has(w, 48, 0xa92dbca1, 0x5f33cfd2, 0xe16f6e89, 0xf70fe941)
    ensures Has(w, 52, 0xca5462dc, 0x85a90152, 0x76af6296, 0xc922bdb2)
    ensures Has(w, 56, 0x68378cf5, 0x97585344, 0x09008723, 0x86faee74)
    ensures Has(w, 60, 0x2ab908b0, 0x4a64bc50, 0x864e6e08, 0xf07e6590)
    ensures Has(w, 64, 0x325c8f78, 0xaccb8011, 0xe11db9dd, 0xb99c0545)
  {
    Words16(o, w);
    Words20(o, w);
    Words24(o, w);
    Words28(o, w);
    Words32(o, w);
    Words36(o, w);
    Words40(o, w);
    Words44(o, w);
    Words48(o, w);
    Words52(o, w);
    Words56(o, w);
    Words60(o, w);
    Words64(o, w);
  }

  lemma AllRounds(o: Ops<bv32>, v: Regs<bv32>, w: seq<bv32>)
    requires o == Program() && Turns(o) && v == InitialRegs() && Expands(o, w)
    requires Has(w, 0, 0x61626380, 0x00000000, 0x00000000, 0x00000000)
    requires Has(w, 4, 0x00000000, 0x00000000, 0x00000000, 0x00000000)
    requires Has(w, 8, 0x00000000, 0x00000000, 0x00000000, 0x00000000)
    requires Has(w, 12, 0x00000000, 0x00000000, 0x00000000, 0x00000018)
    ensures AtRound(o, v, w, ROUNDS, Regs(0x1547e69b, 0x2bfa5f60, 0xc6d696bc, 0x069ae2e2,
      0xe808f43b, 0x4ac3cf08, 0xcaf04e66, 0x3fb0a6ae))
  {
    AllWords(o, w);
    assert RoundIs(o, v, w, 0, v);
    Rounds0(o, v, w, v);
    Rounds8(o, v, w, Regs(0x1022ac97, 0x33130100, 0x94194e6e, 0x32aecc3f,
      0x367250a1, 0x3391ec8a, 0xb1cd6787, 0x97545690));
    Rounds16(o, v, w, Regs(0x34d1691e, 0x7c529778, 0x92b57849, 0x979ab113,
      0x61f99646, 0x3ee95933, 0x2aa0d251, 0xdb131b86));
    Rounds24(o, v, w, Regs(0xf368da78, 0xeeeec41a, 0x185f9a9a, 0x8af12c05,
      0x6a879032, 0xb5523911, 0xe84abb78, 0x340ba2bb));
    Rounds32(o, v, w, Regs(0x89a13e59, 0xa5a4a2b3, 0x37593bff, 0x3d708fc2,
      0x0a1ff572, 0xe92df4ea, 0xa36cc08d, 0x74b72db2));
    Rounds40(o, v, w, Regs(0x19f363f9, 0x2f13c4ad, 0x4a0b31ce, 0x85ae57c2,
      0xc302badb, 0x1a6cabc9, 0xfe9e3fc9, 0xac36a284));
    Rounds48(o, v, w, Regs(0x47c5be50, 0xe51076b3, 0x12150da4, 0xd0b273b0,
      0x3567734e, 0xd9f89e61, 0xb1297299, 0xefac7743));
    Rounds56(o, v, w, Regs(0x22a79585, 0x549db4b7, 0x825d05e8, 0x01da5e94,
      0x9d4db19a, 0xf6bc15ed, 0x03e3a14c, 0xb3a83a0f));
  }

  const ABC: seq<nat> := [0x61, 0x62, 0x63]
  const DIGEST: seq<nat> :=
    [0x66, 0xc7, 0xf0, 0xf4, 0x62, 0xee, 0xed, 0xd9] + [0xd1, 0xf2, 0xd4, 0x6b, 0xdc, 0x10, 0xe4, 0xe2]
    + [0x41, 0x67, 0xc4, 0x87, 0x5c, 0xf2, 0xf7, 0xa2] + [0x29, 0x7d, 0xa0, 0x2b, 0x8f, 0x4b, 0xa8, 0xe0]

  lemma Four(a: nat, b: nat, c: nat, d: nat)
    ensures FromBytes([a, b, c, d]) == 16777216 * a + 65536 * b + 256 * c + d
  {
    assert [a, b, c, d][..3] == [a, b, c] && [a, b, c][..2] == [a, b] && [a, b][..1] == [a] && [a][..0] == [];
    assert FromBytes([a]) == a && FromBytes([a, b]) == 256 * a + b;
    assert FromBytes([a, b, c]) == 256 * (256 * a + b) + c;
  }

  lemma Loads(o: Ops<bv32>)
    requires o == Program()
    ensures o.load(0x61626380) == 0x61626380 && o.load(0x18) == 0x18 && o.load(0) == 0
  {
    LoadStore(0x61626380, 0x61626380);
    LoadStore(0x18, 0x18);
    LoadStore(0, 0);
  }

  lemma LoadStore(x: bv32, n: nat)
    requires x as nat == n
    ensures Load(n) == x
  {
    assert n % 0x1_0000_0000 == n;
  }

  lemma {:induction false} LengthBytes(x: nat, n: nat)
    requires x < 256 && n > 0
    ensures BigEndian(x, n) == Zeros<nat>(0, n - 1) + [x]
  {
    if n > 1 {
      ShortNumber(x, n - 1, 1);
      ZeroBytes(n - 1);
      assert BigEndian(x, 1) == [x];
    }
  }

  /** The padded message in one block. */
  ghost predicate IsBlock(b: seq<nat>) {
    b == ABC + [0x80] + Zeros<nat>(0, 52) + BigEndian(24, LENGTH)
  }

  lemma BlockBytes(b: seq<nat>, n: nat, x: nat)
    requires b == ABC + [0x80] + Zeros<nat>(0, 52) + BigEndian(x, n) && n == 8 && x < 256
    ensures |b| == 64 && b[0] == 0x61 && b[1] == 0x62 && b[2] == 0x63 && b[3] == 0x80 && b[63] == x
    ensures forall k :: 4 <= k < 63 ==> b[k] == 0
  {
    LengthBytes(x, n);
  }

  lemma BlockWord(o: Ops<bv32>, b: seq<nat>, i: nat)
    requires o == Program() && IsBlock(b) && i < 16
    ensures |b| == 64
    ensures BlockWords(o, b)[i] == if i == 0 then 0x61626380 else if i == 15 then 0x18 else 0
  {
    WordNumber(b, i);
    Loads(o);
  }

  lemma WordNumber(b: seq<nat>, i: nat)
    requires IsBlock(b) && i < 16
    ensures |b| == 64 && FromBytes(Word(b, i)) == if i == 0 then 0x61626380 else if i == 15 then 0x18 else 0
  {
    BlockBytes(b, LENGTH, 24);
    var k := 4 * i;
    assert Word(b, i) == [b[k], b[k + 1], b[k + 2], b[k + 3]];
    Four(b[k], b[k + 1], b[k + 2], b[k + 3]);
  }

  lemma AbcWords(o: Ops<bv32>, b: seq<nat>, w: seq<bv32>)
    requires o == Program() && IsBlock(b) && |b| == 64 && |w| == EXPANDED && w[..16] == BlockWords(o, b)
    ensures Has(w, 0, 0x61626380, 0, 0, 0) && Has(w, 4, 0, 0, 0, 0)
    ensures Has(w, 8, 0, 0, 0, 0) && Has(w, 12, 0, 0, 0, 0x18)
  {
    forall i: nat | i < 16 ensures w[i] == if i == 0 then 0x61626380 else if i == 15 then 0x18 else 0 {
      assert w[i] == w[..16][i];
      BlockWord(o, b, i);
    }
  }

  lemma AbcCompressed(o: Ops<bv32>, v: Regs<bv32>, b: seq<nat>, n: nat)
    requires o == Program() && v == InitialRegs() && IsBlock(b) && |b| == 64 && n == EXPANDED
    ensures o.full > 0 && Compressed(o, v, BlockWords(o, b)) ==
      Regs(0x66c7f0f4, 0x62eeedd9, 0xd1f2d46b, 0xdc10e4e2,
           0x4167c487, 0x5cf2f7a2, 0x297da02b, 0x8f4ba8e0)
  {
    var m := BlockWords(o, b);
    var w := Expanded(o, m, n);
    ProgramTurns(HALF_BITS);
    ExpandedExpands(o, m, n);
    AbcWords(o, b, w);
    AllRounds(o, v, w);
    assert RoundIs(o, v, w, ROUNDS, Regs(0x1547e69b, 0x2bfa5f60, 0xc6d696bc, 0x069ae2e2,
      0xe808f43b, 0x4ac3cf08, 0xcaf04e66, 0x3fb0a6ae));
  }

  /** Word i of s is number i of n, behind a bound variable. */
  ghost predicate IsPiece(s: seq<nat>, n: seq<nat>, i: nat) {
    forall k: nat :: k == i ==> PieceAt(s, n, k)
  }

  ghost predicate PieceAt(s: seq<nat>, n: seq<nat>, i: nat) {
    i < |n| && WordAt(s, i, BigEndian(n[i], WORD))
  }

  lemma Piece(s: seq<nat>, n: seq<nat>, i: nat, a: nat, b: nat, c: nat, d: nat)
    requires 4 * i + 4 <= |s| && s[4 * i] == a && s[4 * i + 1] == b && s[4 * i + 2] == c && s[4 * i + 3] == d
    requires a < 256 && b < 256 && c < 256 && d < 256 && i < |n| && n[i] == 16777216 * a + 65536 * b + 256 * c + d
    ensures IsPiece(s, n, i)
  {
    assert s[4 * i..4 * i + 4] == [a, b, c, d];
    Four(a, b, c, d);
    NumberRoundTrip([a, b, c, d]);
  }

  lemma Numbers(o: Ops<bv32>)
    requires o == Program()
    ensures o.store(0x66c7f0f4) == 0x66c7f0f4
    ensures o.store(0x62eeedd9) == 0x62eeedd9
    ensures o.store(0xd1f2d46b) == 0xd1f2d46b
    ensures o.store(0xdc10e4e2) == 0xdc10e4e2
    ensures o.store(0x4167c487) == 0x4167c487
    ensures o.store(0x5cf2f7a2) == 0x5cf2f7a2
    ensures o.store(0x297da02b) == 0x297da02b
    ensures o.store(0x8f4ba8e0) == 0x8f4ba8e0
  {
  }

  /** The words of the digest as numbers. */
  const NUMBERS: seq<nat> := [
    0x66c7f0f4, 0x62eeedd9, 0xd1f2d46b, 0xdc10e4e2,
    0x4167c487, 0x5cf2f7a2, 0x297da02b, 0x8f4ba8e0]

  lemma FirstPieces(s: seq<nat>, n: seq<nat>)
    requires s == DIGEST && n == NUMBERS
    ensures IsPiece(s, n, 0) && IsPiece(s, n, 1)
  {
    Piece(s, n, 0, 0x66, 0xc7, 0xf0, 0xf4);
    Piece(s, n, 1, 0x62, 0xee, 0xed, 0xd9);
  }

  lemma NextPieces(s: seq<nat>, n: seq<nat>)
    requires s == DIGEST && n == NUMBERS
    ensures IsPiece(s, n, 2) && IsPiece(s, n, 3)
  {
    Piece(s, n, 2, 0xd1, 0xf2, 0xd4, 0x6b);
    Piece(s, n, 3, 0xdc, 0x10, 0xe4, 0xe2);
  }

  lemma LastPieces(s: seq<nat>, n: seq<nat>)
    requires s == DIGEST && n == NUMBERS
    ensures IsPiece(s, n, 4) && IsPiece(s, n, 5) && IsPiece(s, n, 6) && IsPiece(s, n, 7)
  {
    Piece(s, n, 4, 0x41, 0x67, 0xc4, 0x87);
    Piece(s, n, 5, 0x5c, 0xf2, 0xf7, 0xa2);
    Piece(s, n, 6, 0x29, 0x7d, 0xa0, 0x2b);
    Piece(s, n, 7, 0x8f, 0x4b, 0xa8, 0xe0);
  }

  lemma AbcPieces(s: seq<nat>, n: seq<nat>)
    requires s == DIGEST && n == NUMBERS
    ensures |s| == 32 && |n| == 8 && forall i: nat :: i < 8 ==> IsPiece(s, n, i)
  {
    FirstPieces(s, n);
    NextPieces(s, n);
    LastPieces(s, n);
  }

  lemma OutputOf<W>(o: Ops<W>, r: Regs<W>, s: seq<nat>, n: seq<nat>)
    requires |s| == 32 && |n| == 8
    requires o.store(r.a) == n[0] && o.store(r.b) == n[1] && o.store(r.c) == n[2] && o.store(r.d) == n[3]
    requires o.store(r.e) == n[4] && o.store(r.f) == n[5] && o.store(r.g) == n[6] && o.store(r.h) == n[7]
    requires forall i: nat :: i < 8 ==> IsPiece(s, n, i)
    ensures IsOutput(o, r, s)
  {
    forall i: nat | i < 8 ensures WordAt(s, i, BigEndian(o.store(RegWords(r)[i]), WORD)) {
      assert IsPiece(s, n, i) && PieceAt(s, n, i) && o.store(RegWords(r)[i]) == n[i];
    }
  }

  lemma AbcOutput(o: Ops<bv32>, r: Regs<bv32>, s: seq<nat>, n: seq<nat>)
    requires o == Program() && s == DIGEST && n == NUMBERS
    requires r == Regs(0x66c7f0f4, 0x62eeedd9, 0xd1f2d46b, 0xdc10e4e2,
                       0x4167c487, 0x5cf2f7a2, 0x297da02b, 0x8f4ba8e0)
    ensures IsOutput(o, r, s)
  {
    Numbers(o);
    AbcPieces(s, n);
    OutputOf(o, r, s, n);
  }

  /** Main result: the digest of "abc" by the standard. */
  lemma AbcDigest(o: Ops<bv32>, v: Regs<bv32>, field: seq<nat>)
    requires o == Program() && v == InitialRegs() && field == BigEndian(24, LENGTH)
    ensures IsDigestOf(o, v, ABC, field, DIGEST)
  {
    var none: seq<seq<nat>> := [];
    var b := ABC + [0x80] + Zeros<nat>(0, 52) + field;
    BlockBytes(b, LENGTH, 24);
    AbcCompressed(o, v, b, EXPANDED);
    var h := Compressed(o, v, BlockWords(o, b));
    AbcCut(none);
    OneBlock(Compressor(o), v, ABC, field, 64, none, ABC, h);
    AbcOutput(o, h, DIGEST, NUMBERS);
    assert IsDigestAt(o, v, ABC, field, DIGEST, h);
  }

  lemma AbcCut(none: seq<seq<nat>>)
    requires none == []
    ensures Cut(ABC, 64, none, ABC)
  {
    assert Flat(none) + ABC == ABC;
  }

  /** The first half of SM3_SelfTest. */
  method SelfTest() returns (digest: seq<nat>)
    ensures digest == DIGEST
  {
    digest := Hash(ABC);
    AbcDigest(Program(), InitialRegs(), BigEndian(24, LENGTH));
    OneDigest(Program(), InitialRegs(), ABC, BigEndian(24, LENGTH), digest, DIGEST);
  }
}
