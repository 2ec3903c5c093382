/** SM4_OCB_Encrypt and SM4_OCB_Decrypt of lib/gm/source/SM4_Enc.c with the input and the output in one buffer:
    decryption works there, encryption does not, because it reads the message again after it was overwritten. */
module OcbInPlace {
  import opened Cbc
  import opened Collections
  import opened Ocb
  import opened OcbProgram

  // ----- decryption -----

  lemma NothingOpened<W(!new), B(!new)>(o: Mode<W, B>, start: seq<B>, c: seq<B>, out: seq<B>)
    requires Usable(o) && |start| == 16 && |c| <= |out| && c == out[..|c|]
    ensures OpenedTo(o, start, c, 16 * (|c| / 16), out, 0)
  {
    var full := 16 * (|c| / 16);
    assert out[..full] == c[..full];
  }

  /** Whole blocks, then the last bytes, which were not overwritten when they are read. */
  method OpenHere<W(0, !new), B(0, !new)>(o: Mode<W, B>, l: seq<seq<B>>, star: seq<B>, start: seq<B>, m: nat,
                                          out: array<B>)
      returns (last: seq<B>)
    requires IsTable(o, l) && star == LStar(o) && |start| == 16 && m <= out.Length
    requires forall k :: 0 < k <= m / 16 ==> Ntz(k) < |l|
    modifies out
    ensures last == LastOffset(o, start, m) && IsPlain(o, start, old(out[..m]), out[..m]) && out[m..] == old(out[m..])
  {
    ghost var c, before := out[..m], out[..];
    var full := m - m % 16;
    NothingOpened(o, start, c, before);
    var offset := OpenBlocks(o, l, start, c, out, m / 16);
    FurtherOn(out[..], before, full, m);
    SameMiddle(out[..], before, full, m);
    last := OpenTail(o, star, start, c, out[full..m], full, out, offset);
  }

  lemma SameMiddle<B>(d: seq<B>, e: seq<B>, j: nat, k: nat)
    requires j <= k <= |d| == |e| && d[j..] == e[j..]
    ensures d[j..k] == e[..k][j..]
  {
    assert d[j..k] == d[j..][..k - j] && e[..k][j..] == e[j..][..k - j];
  }

  /** SM4_OCB_Decrypt with out at the start of the ciphertext: as OpenMessage. */
  method OpenInPlace<W(0, !new), B(0, !new)>(o: Mode<W, B>, n: NonceOps<B>, nonce: seq<B>, m: nat, a: seq<B>,
                                             out: array<B>)
      returns (diff: B)
    requires Ready(o, n, nonce) && (m >= 16 || |a| >= 16) && m + 16 <= out.Length
    modifies out
    ensures Decided(o, Start(o.s, n, nonce), old(out[..m]), old(out[m..m + 16]), a, out[..m], diff)
    ensures out[m..] == old(out[m..])
  {
    assert LawsOf(o, 2);
    TableEmpty(m, |a|);
    var star, dollar, l := BuildTable(o, TableFor(m, |a|));
    forall k | 0 < k && (k <= m / 16 || k <= |a| / 16) ensures Ntz(k) < |l| { TableServes(m, |a|, k); }
    var start := InitialOffset(o.s, n, nonce);
    ghost var before := out[..];
    var last := OpenHere(o, l, star, start, m, out);
    assert out[m..m + 16] == out[m..][..16] && before[m..m + 16] == before[m..][..16];
    var tag := TagOf(o, l, star, dollar, start, out[..m], a, last);
    diff := Compare(o, tag, out[m..m + 16]);
  }

  // ----- encryption -----

  /** What encryption leaves of p in one buffer: whole blocks sealed, zeros for the last bytes, and the tag of that. */
  ghost predicate SealedOver<W(!new), B(!new)>(o: Mode<W, B>, start: seq<B>, p: seq<B>, a: seq<B>, text: seq<B>) {
    && Usable(o) && |start| == 16 && |text| == |p| + 16
    && (forall j: nat :: 16 * j + 16 <= |p| ==> SealedAt(o, start, p, text[..|p|], j))
    && Tail(text[..|p|]) == Zeros(o.s.zero, |p| % 16) && text[|p|..] == Tag(o, start, text[..|p|], a)
  }

  /** The pad, made in the buffer over the last bytes, xored with the bytes that are there now: itself. */
  method PadOver<W(0, !new), B(0, !new)>(o: Mode<W, B>, out: array<B>, p: nat, off: seq<B>, r: nat)
    requires Keyed(o.s) && Detects(o) && |off| == 16 && r < 16 && p + 16 <= out.Length
    modifies out
    ensures out[..p] == old(out[..p]) && out[p..p + r] == Zeros(o.s.zero, r) && out[p + 16..] == old(out[p + 16..])
  {
    ghost var was := out[..];
    PadAt(o.s, out, p, off);
    ghost var pad := out[..];
    var i := 0;
    while i < r
      invariant 0 <= i <= r
      invariant forall k :: 0 <= k < out.Length ==> out[k] == if p <= k < p + i then o.s.zero else pad[k]
    {
      out[p + i] := o.s.xor(out[p + i], out[p + i]);
      i := i + 1;
    }
    assert out[..p] == pad[..p] && out[p + 16..] == pad[p + 16..];
  }

  /** Sums over whole blocks do not see what comes after them. */
  lemma {:induction false} SumBefore<B>(xor: (B, B) -> B, zero: B, p: seq<B>, q: seq<B>, j: nat)
    requires 16 * j <= |p| <= |q| && p == q[..|p|]
    ensures Sum(xor, zero, p, j) == Sum(xor, zero, q, j)
  {
    if j > 0 {
      SumBefore(xor, zero, p, q, j - 1);
      assert Block(p, j - 1) == Block(q, j - 1);
    }
  }

  /** sum is the sum of the whole blocks of q; behind a bound variable, so that only proofs that name it see inside. */
  ghost predicate BlockSum<W(!new), B(!new)>(o: Mode<W, B>, q: seq<B>, sum: seq<B>) {
    forall k: nat :: k == |q| / 16 ==> BlockSumIs(o, q, sum, k)
  }

  ghost predicate BlockSumIs<W(!new), B(!new)>(o: Mode<W, B>, q: seq<B>, sum: seq<B>, k: nat) {
    16 * k <= |q| && sum == Sum(o.s.xor, o.s.zero, q, k)
  }

  /** The whole blocks sealed, and the checksum of what is there then. */
  method SealHere<W(0, !new), B(0, !new)>(o: Mode<W, B>, l: seq<seq<B>>, start: seq<B>, m: nat, full: nat,
                                          out: array<B>)
      returns (offset: seq<B>, sum: seq<B>)
    requires IsTable(o, l) && |start| == 16 && m + 16 <= out.Length && full == m - m % 16
    requires forall k :: 0 < k <= m / 16 ==> Ntz(k) < |l|
    modifies out
    ensures AtOffset(o, start, m / 16, offset) && SealedTo(o, start, old(out[..m]), out[..], m / 16)
    ensures out[full..] == old(out[full..]) && BlockSum(o, out[..full], sum) && |sum| == 16
  {
    ghost var p := out[..m];
    offset := SealBlocks(o, l, start, p, out, m / 16);
    sum := SumBlocks(o.s.xor, o.s.zero, out[..full], full);
    assert BlockSumIs(o, out[..full], sum, full / 16);
  }

  lemma CheckHere<W(!new), B(!new)>(o: Mode<W, B>, q: seq<B>, full: nat, sum: seq<B>, check: seq<B>)
    requires full == |q| - |q| % 16 && |sum| == 16 && BlockSum(o, q[..full], sum)
    requires check == if |q| % 16 == 0 then sum else Xor(o.s.xor, sum, Marked(o.s.zero, o.mark, q[full..]))
    ensures check == Checksum(o, q)
  {
    assert BlockSumIs(o, q[..full], sum, full / 16);
    SumBefore(o.s.xor, o.s.zero, q[..full], q, full / 16);
    assert full / 16 == |q| / 16;
  }

  lemma LastIs<W(!new), B(!new)>(o: Mode<W, B>, start: seq<B>, m: nat, star: seq<B>, offset: seq<B>)
    requires Usable(o) && |start| == 16 && star == LStar(o) && AtOffset(o, start, m / 16, offset)
    ensures |offset| == 16
    ensures LastOffset(o, start, m) == if m % 16 == 0 then offset else Xor(o.s.xor, offset, star)
  {
    assert OffsetIs(o, start, m / 16, offset);
  }

  /** What SealTailHere leaves: zeros for the last r bytes before m, and nothing else changed up to m or from m + 16. */
  ghost predicate TailZeroed<B>(zero: B, before: seq<B>, out: seq<B>, m: nat, full: nat) {
    && full <= m && m + 16 <= |out| == |before| && out[..full] == before[..full]
    && out[full..m] == Zeros(zero, m - full) && out[m + 16..] == before[m + 16..]
  }

  /** The last bytes: the buffer, the last offset and the checksum. */
  method SealTailHere<W(0, !new), B(0, !new)>(o: Mode<W, B>, star: seq<B>, ghost start: seq<B>, m: nat, full: nat,
                                              out: array<B>, offset: seq<B>, sum: seq<B>)
      returns (last: seq<B>, check: seq<B>)
    requires Usable(o) && Lawful(o) && |start| == 16 && star == LStar(o) && m + 16 <= out.Length && full == m - m % 16
    requires AtOffset(o, start, m / 16, offset) && |sum| == 16 && BlockSum(o, out[..full], sum)
    modifies out
    ensures last == LastOffset(o, start, m) && |last| == 16
    ensures TailZeroed(o.s.zero, old(out[..]), out[..], m, full) && check == Checksum(o, out[..m]) && |check| == 16
  {
    LastIs(o, start, m, star, offset);
    last, check := offset, sum;
    if m > full {
      last := Xor(o.s.xor, offset, star);
      ZeroTail(o, out, m, full, last);
      assert LawsOf(o, 2);
      check := SumTail(o.s.xor, o.s.zero, o.mark, check, out[full..m]);
    }
    assert out[..m][..full] == out[..full] && out[..m][full..] == out[full..m];
    CheckHere(o, out[..m], full, sum, check);
  }

  method ZeroTail<W(0, !new), B(0, !new)>(o: Mode<W, B>, out: array<B>, m: nat, full: nat, last: seq<B>)
    requires Usable(o) && Lawful(o) && |last| == 16 && m + 16 <= out.Length && full == m - m % 16
    modifies out
    ensures TailZeroed(o.s.zero, old(out[..]), out[..], m, full) && out[..full] == old(out[..full])
  {
    assert LawsOf(o, 2);
    ghost var before := out[..];
    PadOver(o, out, full, last, m - full);
    assert out[..][full + 16..] == before[full + 16..];
    FurtherOn(out[..], before, full + 16, m + 16);
  }

  /** SM4_OCB_Encrypt with out at the start of the message. */
  method SealInPlace<W(0, !new), B(0, !new)>(o: Mode<W, B>, n: NonceOps<B>, nonce: seq<B>, m: nat, a: seq<B>,
                                             out: array<B>)
    requires Ready(o, n, nonce) && (m >= 16 || |a| >= 16) && m + 16 <= out.Length
    modifies out
    ensures SealedOver(o, Start(o.s, n, nonce), old(out[..m]), a, out[..m + 16]) && out[m + 16..] == old(out[m + 16..])
  {
    var start := InitialOffset(o.s, n, nonce);
    SealOver(o, start, m, a, out);
  }

  method SealOver<W(0, !new), B(0, !new)>(o: Mode<W, B>, start: seq<B>, m: nat, a: seq<B>, out: array<B>)
    requires Usable(o) && Lawful(o) && |start| == 16 && (m >= 16 || |a| >= 16) && m + 16 <= out.Length
    modifies out
    ensures SealedOver(o, start, old(out[..m]), a, out[..m + 16]) && out[m + 16..] == old(out[m + 16..])
  {
    TableEmpty(m, |a|);
    var star, dollar, l := BuildTable(o, TableFor(m, |a|));
    forall k | 0 < k && (k <= m / 16 || k <= |a| / 16) ensures Ntz(k) < |l| { TableServes(m, |a|, k); }
    SealWith(o, l, star, dollar, start, m, m - m % 16, a, out);
  }

  method SealWith<W(0, !new), B(0, !new)>(o: Mode<W, B>, l: seq<seq<B>>, star: seq<B>, dollar: seq<B>, start: seq<B>,
                                          m: nat, full: nat, a: seq<B>, out: array<B>)
    requires IsTable(o, l) && Lawful(o) && star == LStar(o) && dollar == LDollar(o) && |start| == 16
    requires forall k :: 0 < k && (k <= m / 16 || k <= |a| / 16) ==> Ntz(k) < |l|
    requires full == m - m % 16 && m + 16 <= out.Length
    modifies out
    ensures SealedOver(o, start, old(out[..m]), a, out[..m + 16]) && out[m + 16..] == old(out[m + 16..])
  {
    ghost var p, was := out[..m], out[..];
    var offset, sum := SealHere(o, l, start, m, full, out);
    ghost var blocks := out[..];
    FurtherOn(blocks, was, full, m + 16);
    var last, check := SealTailHere(o, star, start, m, full, out, offset, sum);
    var h := HashData(o, l, star, a);
    var tag := MakeTag(o, check, last, dollar, h);
    ghost var before := out[..];
    WriteAt(out, m, tag);
    SpliceParts(before, m, tag, out[..]);
    OverDone(o, start, p, a, blocks, before, out[..], full);
  }

  lemma OverDone<W(!new), B(!new)>(o: Mode<W, B>, start: seq<B>, p: seq<B>, a: seq<B>, blocks: seq<B>, before: seq<B>,
                                   out: seq<B>, full: nat)
    requires SealedTo(o, start, p, blocks, |p| / 16) && full == |p| - |p| % 16 && |out| == |before|
    requires TailZeroed(o.s.zero, blocks, before, |p|, full)
    requires out[..|p|] == before[..|p|] && out[|p|..|p| + 16] == Tag(o, start, before[..|p|], a)
    ensures SealedOver(o, start, p, a, out[..|p| + 16])
  {
    var text := out[..|p| + 16];
    var c := text[..|p|];
    assert c == before[..|p|] && text[|p|..] == out[|p|..|p| + 16];
    forall j: nat | 16 * j + 16 <= |p| ensures SealedAt(o, start, p, c, j) {
      assert SealedAt(o, start, p, blocks, j);
      SameBlocks(c, before, blocks, full, j);
    }
    assert Tail(c) == before[full..|p|];
  }

  // ----- when that is the ciphertext -----

  lemma XorZero<W(!new), B(!new)>(o: Mode<W, B>, a: seq<B>, b: seq<B>)
    requires Detects(o) && |a| == |b|
    ensures Xor(o.s.xor, a, b) == Zeros(o.s.zero, |a|) <==> a == b
  {
    var x := Xor(o.s.xor, a, b);
    if a == b { assert x == Zeros(o.s.zero, |a|); }
    if x == Zeros(o.s.zero, |a|) {
      forall k | 0 <= k < |a| ensures a[k] == b[k] { assert x[k] == o.s.zero; }
    }
  }

  /** Texts of one length have the same tag exactly if they have the same checksum. */
  lemma SameTag<W(!new), B(!new)>(o: Mode<W, B>, start: seq<B>, p: seq<B>, q: seq<B>, a: seq<B>)
    requires Usable(o) && Good(o.s) && |start| == 16 && |p| == |q|
    ensures Tag(o, start, p, a) == Tag(o, start, q, a) <==> Checksum(o, p) == Checksum(o, q)
  {
    var x, off := o.s.xor, LastOffset(o, start, |p|);
    var u, v := Xor(x, Checksum(o, p), off), Xor(x, Checksum(o, q), off);
    var w, y := Xor(x, u, LDollar(o)), Xor(x, v, LDollar(o));
    if Tag(o, start, p, a) == Tag(o, start, q, a) {
      XorBack(x, o.s.enc(w), o.s.enc(y), Hash(o, a));
      DecEnc(o.s, w);
      DecEnc(o.s, y);
      XorBack(x, u, v, LDollar(o));
      XorBack(x, Checksum(o, p), Checksum(o, q), off);
    }
  }

  /** Main result: encryption in one buffer gives ciphertext and tag of the message exactly if the last bytes of the
      message are those of the pad and the checksum of what is left is the checksum of the message. */
  lemma InPlaceExact<W(!new), B(!new)>(o: Mode<W, B>, n: NonceOps<B>, nonce: seq<B>, p: seq<B>, a: seq<B>,
                                       text: seq<B>)
    requires Ready(o, n, nonce) && Good(o.s) && SealedOver(o, Start(o.s, n, nonce), p, a, text)
    ensures IsSealed(o, n, nonce, p, a, text) <==>
      && Tail(p) == o.s.enc(LastOffset(o, Start(o.s, n, nonce), |p|))[..|p| % 16]
      && Checksum(o, text[..|p|]) == Checksum(o, p)
  {
    var start := Start(o.s, n, nonce);
    assert LawsOf(o, 2);
    XorZero(o, o.s.enc(LastOffset(o, start, |p|))[..|p| % 16], Tail(p));
    SameTag(o, start, p, text[..|p|], a);
  }

  /** So of two messages of one length with different last bytes at most one is encrypted rightly. */
  lemma InPlaceFails<W(!new), B(!new)>(o: Mode<W, B>, n: NonceOps<B>, nonce: seq<B>, p: seq<B>, q: seq<B>, a: seq<B>,
                                       text: seq<B>, text': seq<B>)
    requires Ready(o, n, nonce) && Good(o.s) && |p| == |q| && Tail(p) != Tail(q)
    requires SealedOver(o, Start(o.s, n, nonce), p, a, text) && SealedOver(o, Start(o.s, n, nonce), q, a, text')
    ensures !IsSealed(o, n, nonce, p, a, text) || !IsSealed(o, n, nonce, q, a, text')
  {
    InPlaceExact(o, n, nonce, p, a, text);
    InPlaceExact(o, n, nonce, q, a, text');
  }
}
