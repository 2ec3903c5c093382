/** SM4_OCB_Encrypt, SM4_OCB_Decrypt and hash of lib/gm/source/SM4_Enc.c against the definitions of Ocb. */
module OcbProgram {
  import opened Cbc
  import opened Collections
  import opened Ocb
  import opened Sm4

  /** SM4_Encrypt on a block. */
  method EncryptOne<W(0, !new), B(0, !new)>(s: Suite<W, B>, b: seq<B>) returns (c: seq<B>)
    requires Keyed(s) && |b| == 16
    ensures c == s.enc(b) && |c| == 16
  {
    assert Runs(s, b);
    var a := new B[16](i requires 0 <= i < 16 => b[i]);
    assert a[0..16] == b;
    Encrypt(s.core, s.key, a, 0, a, 0);
    c := a[..];
  }

  /** l holds the first offsets of the table. */
  ghost predicate IsTable<W(!new), B(!new)>(o: Mode<W, B>, l: seq<seq<B>>) {
    Usable(o) && forall i: nat :: i < |l| ==> l[i] == L(o, i)
  }

  /** L_*, L_$ and the table, each entry the double of the one before. */
  method BuildTable<W(0, !new), B(0, !new)>(o: Mode<W, B>, len: nat)
      returns (star: seq<B>, dollar: seq<B>, l: seq<seq<B>>)
    requires Usable(o) && len > 0
    ensures star == LStar(o) && dollar == LDollar(o) && |l| == len && IsTable(o, l)
  {
    star := EncryptOne(o.s, Zeros(o.s.zero, 16));
    dollar := o.double(star);
    l := [o.double(dollar)];
    var i := 1;
    while i < len
      invariant 1 <= i <= len && |l| == i && IsTable(o, l)
    {
      l := l + [o.double(l[i - 1])];
      i := i + 1;
    }
  }

  /** xor_16, SM4_Encrypt and xor_16 on the 16 bytes at p, in place. */
  method SealAt<W(0, !new), B(0, !new)>(s: Suite<W, B>, out: array<B>, p: nat, off: seq<B>)
    requires Keyed(s) && |off| == 16 && p + 16 <= out.Length
    modifies out
    ensures out[..] == Splice(old(out[..]), p, Xor(s.xor, s.enc(Xor(s.xor, old(out[p..p + 16]), off)), off))
  {
    ghost var b := out[p..p + 16];
    XorAt(s.xor, out, p, off);
    assert Runs(s, Xor(s.xor, b, off));
    Encrypt(s.core, s.key, out, p, out, p);
    XorAt(s.xor, out, p, off);
  }

  /** xor_16 at p. */
  method XorAt<B>(xor: (B, B) -> B, out: array<B>, p: nat, b: seq<B>)
    requires |b| == 16 && p + 16 <= out.Length
    modifies out
    ensures out[p..p + 16] == Xor(xor, old(out[p..p + 16]), b)
    ensures out[..] == Splice(old(out[..]), p, Xor(xor, old(out[p..p + 16]), b))
  {
    var i := 0;
    ghost var before := out[..];
    while i < 16
      invariant 0 <= i <= 16
      invariant forall k :: 0 <= k < out.Length ==>
        out[k] == if p <= k < p + i then xor(before[k], b[k - p]) else before[k]
    {
      out[p + i] := xor(out[p + i], b[i]);
      i := i + 1;
    }
    ghost var x := Xor(xor, before[p..p + 16], b);
    assert out[p..p + 16] == x;
    assert out[..] == Splice(before, p, x);
  }

  /** The first j blocks of the buffer are sealed, the rest is the message still. */
  ghost predicate SealedTo<W(!new), B(!new)>(o: Mode<W, B>, start: seq<B>, p: seq<B>, out: seq<B>, j: nat) {
    && Usable(o) && |start| == 16 && 16 * j <= |p| <= |out| && out[16 * j..|p|] == p[16 * j..]
    && forall k: nat :: k < j ==> SealedAt(o, start, p, out, k)
  }

  lemma SealNext<W(!new), B(!new)>(o: Mode<W, B>, start: seq<B>, p: seq<B>, out: seq<B>, j: nat, out': seq<B>)
    requires SealedTo(o, start, p, out, j) && 16 * j + 16 <= |p|
    requires out' == Splice(out, 16 * j, Sealed(o, start, Block(p, j), j))
    ensures SealedTo(o, start, p, out', j + 1)
  {
    forall k: nat | k < j + 1 ensures SealedAt(o, start, p, out', k) {
      if k < j {
        assert SealedAt(o, start, p, out, k);
        assert Block(out', k) == Block(out, k);
      } else {
        assert Block(out', k) == Sealed(o, start, Block(p, j), j);
      }
    }
    assert out'[16 * (j + 1)..|p|] == out[16 * j..|p|][16..] == p[16 * j..][16..];
  }

  /** offset is Offset_i; behind a bound variable, so that only proofs that name it see inside. */
  ghost predicate AtOffset<W(!new), B(!new)>(o: Mode<W, B>, start: seq<B>, i: nat, offset: seq<B>) {
    forall k: nat :: k == i ==> OffsetIs(o, start, k, offset)
  }

  ghost predicate OffsetIs<W(!new), B(!new)>(o: Mode<W, B>, start: seq<B>, i: nat, offset: seq<B>) {
    Usable(o) && |start| == 16 && offset == Offset(o, start, i)
  }

  /** The offset of the next block, from the table. */
  method NextOffset<W(!new), B(!new)>(o: Mode<W, B>, l: seq<seq<B>>, ghost start: seq<B>, i: nat, offset: seq<B>)
      returns (next: seq<B>)
    requires IsTable(o, l) && AtOffset(o, start, i, offset) && Ntz(i + 1) < |l|
    ensures |next| == 16 && AtOffset(o, start, i + 1, next)
  {
    assert OffsetIs(o, start, i, offset);
    assert l[Ntz(i + 1)] == L(o, Ntz(i + 1));
    next := Xor(o.s.xor, offset, l[Ntz(i + 1)]);
  }

  /** Block i sealed in place under its offset. */
  method SealStep<W(0, !new), B(0, !new)>(o: Mode<W, B>, ghost start: seq<B>, ghost p: seq<B>, out: array<B>, i: nat,
                                          offset: seq<B>)
    requires SealedTo(o, start, p, out[..], i) && 16 * i + 16 <= |p| && AtOffset(o, start, i + 1, offset)
    requires |offset| == 16
    modifies out
    ensures SealedTo(o, start, p, out[..], i + 1) && out[16 * i + 16..] == old(out[16 * i + 16..])
  {
    ghost var before := out[..];
    assert OffsetIs(o, start, i + 1, offset);
    BlockThere(o, start, p, before, i);
    SealAt(o.s, out, i * 16, offset);
    SealNext(o, start, p, before, i, out[..]);
  }

  /** The main loop of encryption. */
  method SealBlocks<W(0, !new), B(0, !new)>(o: Mode<W, B>, l: seq<seq<B>>, start: seq<B>, ghost p: seq<B>,
                                            out: array<B>, m: nat)
      returns (offset: seq<B>)
    requires IsTable(o, l) && SealedTo(o, start, p, out[..], 0) && m == |p| / 16
    requires forall k :: 0 < k <= m ==> Ntz(k) < |l|
    modifies out
    ensures AtOffset(o, start, m, offset) && SealedTo(o, start, p, out[..], m) && out[16 * m..] == old(out[16 * m..])
  {
    offset := start;
    assert OffsetIs(o, start, 0, offset);
    var i := 0;
    while i < m
      invariant 0 <= i <= m && AtOffset(o, start, i, offset) && SealedTo(o, start, p, out[..], i)
      invariant out[16 * m..] == old(out[..])[16 * m..]
    {
      offset := NextOffset(o, l, start, i, offset);
      ghost var before := out[..];
      SealStep(o, start, p, out, i, offset);
      i := i + 1;
      assert out[16 * m..] == out[16 * i..][16 * m - 16 * i..]
        && before[16 * m..] == before[16 * i..][16 * m - 16 * i..];
    }
  }

  lemma BlockThere<W(!new), B(!new)>(o: Mode<W, B>, start: seq<B>, p: seq<B>, out: seq<B>, j: nat)
    requires SealedTo(o, start, p, out, j) && 16 * j + 16 <= |p|
    ensures out[16 * j..16 * j + 16] == Block(p, j)
  {
    assert out[16 * j..16 * j + 16] == out[16 * j..|p|][..16];
    assert Block(p, j) == p[16 * j..][..16];
  }

  // ----- the checksum -----

  /** After j blocks and c bytes: the first c columns have been xored once more than the others. */
  ghost predicate SummedTo<B>(xor: (B, B) -> B, zero: B, p: seq<B>, sum: seq<B>, j: nat, c: nat) {
    |sum| == 16 && c < 16 && 16 * j + c <= |p| - |p| % 16 && forall r: nat :: r < 16 ==>
      ColumnOk(xor, zero, p, sum, j, c, r)
  }

  ghost predicate ColumnOk<B>(xor: (B, B) -> B, zero: B, p: seq<B>, sum: seq<B>, j: nat, c: nat, r: nat) {
    r < 16 == |sum| && 16 * (if r < c then j + 1 else j) <= |p|
      && sum[r] == Sum(xor, zero, p, if r < c then j + 1 else j)[r]
  }

  lemma SumNext<B>(xor: (B, B) -> B, zero: B, p: seq<B>, sum: seq<B>, j: nat, c: nat, c': nat)
    requires SummedTo(xor, zero, p, sum, j, c) && 16 * j + 16 <= |p| && c' == c + 1
    ensures var sum' := sum[c := xor(sum[c], p[16 * j + c])];
      forall r: nat :: r < 16 ==> ColumnOk(xor, zero, p, sum', j, c', r)
  {
    var sum' := sum[c := xor(sum[c], p[16 * j + c])];
    assert Block(p, j)[c] == p[16 * j + c];
    forall r: nat | r < 16 ensures ColumnOk(xor, zero, p, sum', j, c', r) {
      assert ColumnOk(xor, zero, p, sum, j, c, r);
      if r == c { assert Sum(xor, zero, p, j + 1)[c] == xor(Sum(xor, zero, p, j)[c], Block(p, j)[c]); }
    }
  }

  lemma SumWrap<B>(xor: (B, B) -> B, zero: B, p: seq<B>, sum: seq<B>, j: nat, c: nat)
    requires |sum| == 16 == c && 16 * j + 16 <= |p| - |p| % 16
    requires forall r: nat :: r < 16 ==> ColumnOk(xor, zero, p, sum, j, c, r)
    ensures SummedTo(xor, zero, p, sum, j + 1, 0)
  {
    var j' := j + 1;
    forall r: nat | r < 16 ensures ColumnOk(xor, zero, p, sum, j', 0, r) {
      assert ColumnOk(xor, zero, p, sum, j, c, r);
    }
  }

  /** The loop that xors each byte of the whole blocks into its column. */
  method SumBlocks<B>(xor: (B, B) -> B, zero: B, p: seq<B>, full: nat) returns (sum: seq<B>)
    requires full == |p| - |p| % 16
    ensures sum == Sum(xor, zero, p, |p| / 16)
  {
    sum := Zeros(zero, 16);
    var i := 0;
    ghost var j: nat, c: nat := 0, 0;
    while i < full
      invariant 0 <= i <= full && i == 16 * j + c && SummedTo(xor, zero, p, sum, j, c)
    {
      ByteInBlock(|p|, full, i, j, c);
      SumNext(xor, zero, p, sum, j, c, c + 1);
      sum := sum[i % 16 := xor(sum[i % 16], p[i])];
      i := i + 1;
      c := c + 1;
      if c == 16 {
        SumWrap(xor, zero, p, sum, j, c);
        j, c := j + 1, 0;
      }
    }
    ByteAtEnd(|p|, full, j, c);
    forall r: nat | r < 16 ensures sum[r] == Sum(xor, zero, p, j)[r] { assert ColumnOk(xor, zero, p, sum, j, c, r); }
  }

  lemma ByteInBlock(n: nat, full: nat, i: nat, j: nat, c: nat)
    requires full == n - n % 16 && i < full && i == 16 * j + c && c < 16
    ensures i % 16 == c && 16 * j + 16 <= full
  {
  }

  lemma ByteAtEnd(n: nat, full: nat, j: nat, c: nat)
    requires full == n - n % 16 == 16 * j + c && c < 16
    ensures c == 0 && j == n / 16
  {
  }

  // ----- the last bytes and the tag -----

  /** Xor with zero changes nothing. */
  ghost predicate Neutral<B(!new)>(xor: (B, B) -> B, zero: B) {
    forall a: B :: xor(a, zero) == a
  }

  /** The last bytes xored into the checksum, then 0x80 after them. */
  method SumTail<B(!new)>(xor: (B, B) -> B, zero: B, mark: B, sum: seq<B>, t: seq<B>) returns (c: seq<B>)
    requires |sum| == 16 && |t| < 16 && Neutral(xor, zero)
    ensures c == Xor(xor, sum, Marked(zero, mark, t))
  {
    c := sum;
    var i := 0;
    while i < |t|
      invariant 0 <= i <= |t| && |c| == 16
      invariant forall k :: 0 <= k < 16 ==> c[k] == if k < i then xor(sum[k], t[k]) else sum[k]
    {
      c := c[i := xor(c[i], t[i])];
      i := i + 1;
    }
    c := c[|t| := xor(c[|t|], mark)];
  }

  /** The checksum of the whole message. */
  method SumAll<W(!new), B(!new)>(o: Mode<W, B>, p: seq<B>) returns (c: seq<B>)
    requires Neutral(o.s.xor, o.s.zero)
    ensures c == Checksum(o, p) && |c| == 16
  {
    var r := |p| % 16;
    c := SumBlocks(o.s.xor, o.s.zero, p, |p| - r);
    if r > 0 {
      c := SumTail(o.s.xor, o.s.zero, o.mark, c, p[|p| - r..]);
    }
  }

  /** Write a block at p. */
  method WriteAt<B>(out: array<B>, p: nat, b: seq<B>)
    requires p + |b| <= out.Length
    modifies out
    ensures out[..] == Splice(old(out[..]), p, b)
  {
    var i := 0;
    ghost var before := out[..];
    while i < |b|
      invariant 0 <= i <= |b|
      invariant forall k :: 0 <= k < out.Length ==> out[k] == if p <= k < p + i then b[k - p] else before[k]
    {
      out[p + i] := b[i];
      i := i + 1;
    }
  }

  /** xor bytes into the buffer at p. */
  method XorSome<B>(xor: (B, B) -> B, out: array<B>, p: nat, t: seq<B>)
    requires p + |t| <= out.Length
    modifies out
    ensures out[..] == Splice(old(out[..]), p, Xor(xor, old(out[p..p + |t|]), t))
  {
    var i := 0;
    ghost var before := out[..];
    while i < |t|
      invariant 0 <= i <= |t|
      invariant forall k :: 0 <= k < out.Length ==>
        out[k] == if p <= k < p + i then xor(before[k], t[k - p]) else before[k]
    {
      out[p + i] := xor(out[p + i], t[i]);
      i := i + 1;
    }
    assert out[..] == Splice(before, p, Xor(xor, before[p..p + |t|], t));
  }

  lemma SpliceParts<B>(d: seq<B>, p: nat, b: seq<B>, d': seq<B>)
    requires p + |b| <= |d| && d' == Splice(d, p, b)
    ensures |d'| == |d| && d'[..p] == d[..p] && d'[p..p + |b|] == b && d'[p + |b|..] == d[p + |b|..]
  {
  }

  /** Nothing changes from k on when all that is written lies before. */
  lemma SpliceAfter<B>(d: seq<B>, p: nat, b: seq<B>, d': seq<B>, k: nat)
    requires p + |b| <= k <= |d| && d' == Splice(d, p, b)
    ensures |d'| == |d| && d'[k..] == d[k..]
  {
    SpliceParts(d, p, b, d');
    FurtherOn(d', d, p + |b|, k);
  }

  lemma FurtherOn<B>(d: seq<B>, e: seq<B>, j: nat, k: nat)
    requires j <= k <= |d| == |e| && d[j..] == e[j..]
    ensures d[k..] == e[k..]
  {
    assert d[k..] == d[j..][k - j..] && e[k..] == e[j..][k - j..];
  }

  /** The pad, made in the buffer, and the last bytes xored into it. */
  method PadTail<W(0, !new), B(0, !new)>(s: Suite<W, B>, out: array<B>, p: nat, off: seq<B>, t: seq<B>)
    requires Keyed(s) && |off| == 16 && |t| < 16 && p + 16 <= out.Length
    modifies out
    ensures out[..p] == old(out[..p]) && out[p..p + |t|] == Xor(s.xor, s.enc(off)[..|t|], t)
    ensures out[p + 16..] == old(out[p + 16..])
  {
    PadAt(s, out, p, off);
    ghost var pad := out[..];
    assert out[p..p + |t|] == out[p..p + 16][..|t|];
    XorSome(s.xor, out, p, t);
    SpliceParts(pad, p, Xor(s.xor, s.enc(off)[..|t|], t), out[..]);
    assert out[p + 16..] == out[..][p + |t|..][16 - |t|..] && pad[p + 16..] == pad[p + |t|..][16 - |t|..];
  }

  method PadAt<W(0, !new), B(0, !new)>(s: Suite<W, B>, out: array<B>, p: nat, off: seq<B>)
    requires Keyed(s) && |off| == 16 && p + 16 <= out.Length
    modifies out
    ensures out[..p] == old(out[..p]) && out[p..p + 16] == s.enc(off) && out[p + 16..] == old(out[p + 16..])
  {
    ghost var before := out[..];
    WriteAt(out, p, off);
    SpliceParts(before, p, off, out[..]);
    assert Runs(s, off);
    before := out[..];
    Encrypt(s.core, s.key, out, p, out, p);
    SpliceParts(before, p, s.enc(off), out[..]);
  }

  // ----- the hash of the associated data -----

  ghost predicate HashedTo<W(!new), B(!new)>(o: Mode<W, B>, a: seq<B>, j: nat, h: seq<B>) {
    forall k: nat :: k == j ==> HashIs(o, a, k, h)
  }

  ghost predicate HashIs<W(!new), B(!new)>(o: Mode<W, B>, a: seq<B>, j: nat, h: seq<B>) {
    Usable(o) && 16 * j <= |a| && h == HashTo(o, a, j)
  }

  /** One block of associated data. */
  method HashBlock<W(0, !new), B(0, !new)>(o: Mode<W, B>, a: seq<B>, i: nat, offset: seq<B>, h: seq<B>)
      returns (h': seq<B>)
    requires 16 * i + 16 <= |a| && HashedTo(o, a, i, h) && AtOffset(o, Zeros(o.s.zero, 16), i + 1, offset)
    ensures HashedTo(o, a, i + 1, h')
  {
    HashNext(o, a, i, offset, h);
    var temp := EncryptOne(o.s, Xor(o.s.xor, Block(a, i), offset));
    h' := Xor(o.s.xor, h, temp);
  }

  lemma HashNext<W(!new), B(!new)>(o: Mode<W, B>, a: seq<B>, i: nat, offset: seq<B>, h: seq<B>)
    requires 16 * i + 16 <= |a| && HashedTo(o, a, i, h) && AtOffset(o, Zeros(o.s.zero, 16), i + 1, offset)
    ensures Keyed(o.s) && |h| == |offset| == 16
    ensures HashedTo(o, a, i + 1, Xor(o.s.xor, h, o.s.enc(Xor(o.s.xor, Block(a, i), offset))))
  {
    assert HashIs(o, a, i, h) && OffsetIs(o, Zeros(o.s.zero, 16), i + 1, offset);
  }

  method HashData<W(0, !new), B(0, !new)>(o: Mode<W, B>, l: seq<seq<B>>, star: seq<B>, a: seq<B>) returns (h: seq<B>)
    requires IsTable(o, l) && star == LStar(o) && forall k :: 0 < k <= |a| / 16 ==> Ntz(k) < |l|
    ensures h == Hash(o, a) && |h| == 16
  {
    var m := |a| / 16;
    var offset := Zeros(o.s.zero, 16);
    h := Zeros(o.s.zero, 16);
    assert OffsetIs(o, Zeros(o.s.zero, 16), 0, offset) && HashIs(o, a, 0, h);
    var i := 0;
    while i < m
      invariant 0 <= i <= m && AtOffset(o, Zeros(o.s.zero, 16), i, offset) && HashedTo(o, a, i, h)
    {
      offset := NextOffset(o, l, Zeros(o.s.zero, 16), i, offset);
      h := HashBlock(o, a, i, offset, h);
      i := i + 1;
    }
    assert OffsetIs(o, Zeros(o.s.zero, 16), m, offset) && HashIs(o, a, m, h);
    var r := |a| % 16;
    if r > 0 {
      offset := Xor(o.s.xor, offset, star);
      var temp := EncryptOne(o.s, Xor(o.s.xor, Marked(o.s.zero, o.mark, a[|a| - r..]), offset));
      h := Xor(o.s.xor, h, temp);
    }
  }

  // ----- encryption -----

  /** The tag from checksum, last offset, L_$ and hash. */
  method MakeTag<W(0, !new), B(0, !new)>(o: Mode<W, B>, sum: seq<B>, offset: seq<B>, dollar: seq<B>, h: seq<B>)
      returns (t: seq<B>)
    requires Usable(o) && |sum| == |offset| == |dollar| == |h| == 16
    ensures t == Xor(o.s.xor, o.s.enc(Xor(o.s.xor, Xor(o.s.xor, sum, offset), dollar)), h)
  {
    var c := Xor(o.s.xor, Xor(o.s.xor, sum, offset), dollar);
    c := EncryptOne(o.s, c);
    t := Xor(o.s.xor, c, h);
  }

  /** The last bytes of the message, and the last offset. */
  method SealTail<W(0, !new), B(0, !new)>(o: Mode<W, B>, star: seq<B>, start: seq<B>, p: seq<B>, out: array<B>,
                                          offset: seq<B>)
      returns (last: seq<B>)
    requires Usable(o) && |start| == 16 && star == LStar(o) && |p| + 16 <= out.Length
    requires AtOffset(o, start, |p| / 16, offset)
    requires SealedTo(o, start, p, out[..], |p| / 16)
    modifies out
    ensures last == LastOffset(o, start, |p|) && IsCipher(o, start, p, out[..|p|])
    ensures out[|p| + 16..] == old(out[|p| + 16..])
  {
    var r := |p| % 16;
    var full := |p| - r;
    ghost var before := out[..];
    assert OffsetIs(o, start, |p| / 16, offset);
    last := offset;
    if r > 0 {
      last := Xor(o.s.xor, offset, star);
      PadTail(o.s, out, full, last, p[full..]);
      assert out[|p| + 16..] == out[full + 16..][r..] && before[|p| + 16..] == before[full + 16..][r..];
    }
    CipherDone(o, start, p, before, out[..]);
  }

  /** Sealed whole blocks and a padded tail make the ciphertext. */
  lemma CipherDone<W(!new), B(!new)>(o: Mode<W, B>, start: seq<B>, p: seq<B>, before: seq<B>, out: seq<B>)
    requires SealedTo(o, start, p, before, |p| / 16) && |out| == |before|
    requires out[..|p| - |p| % 16] == before[..|p| - |p| % 16]
    requires out[|p| - |p| % 16..|p|] == Padded(o, start, Tail(p), |p|)
    ensures IsCipher(o, start, p, out[..|p|])
  {
    var c, full := out[..|p|], |p| - |p| % 16;
    forall j: nat | 16 * j + 16 <= |p| ensures SealedAt(o, start, p, c, j) {
      assert SealedAt(o, start, p, before, j);
      assert 16 * j + 16 <= full;
      assert Block(c, j) == out[..full][16 * j..16 * j + 16];
      assert Block(before, j) == before[..full][16 * j..16 * j + 16];
    }
  }

  /** Message to ciphertext, in the buffer; the last offset. */
  method SealAll<W(0, !new), B(0, !new)>(o: Mode<W, B>, l: seq<seq<B>>, star: seq<B>, start: seq<B>, p: seq<B>,
                                         out: array<B>)
      returns (last: seq<B>)
    requires IsTable(o, l) && star == LStar(o) && |start| == 16 && |p| + 16 <= out.Length
    requires forall k :: 0 < k <= |p| / 16 ==> Ntz(k) < |l|
    modifies out
    ensures last == LastOffset(o, start, |p|) && IsCipher(o, start, p, out[..|p|])
    ensures out[|p| + 16..] == old(out[|p| + 16..])
  {
    WriteAt(out, 0, p);
    ghost var before, m := out[..], |p| / 16;
    var offset := SealBlocks(o, l, start, p, out, |p| / 16);
    assert out[|p| + 16..] == out[16 * m..][|p| + 16 - 16 * m..]
      && before[|p| + 16..] == before[16 * m..][|p| + 16 - 16 * m..];
    last := SealTail(o, star, start, p, out, offset);
  }

  method TagOf<W(0, !new), B(0, !new)>(o: Mode<W, B>, l: seq<seq<B>>, star: seq<B>, dollar: seq<B>, ghost start: seq<B>,
      p: seq<B>, a: seq<B>, last: seq<B>) returns (tag: seq<B>)
    requires IsTable(o, l) && star == LStar(o) && dollar == LDollar(o) && |start| == 16 && Neutral(o.s.xor, o.s.zero)
    requires last == LastOffset(o, start, |p|) && forall k :: 0 < k <= |a| / 16 ==> Ntz(k) < |l|
    ensures tag == Tag(o, start, p, a) && |tag| == 16
  {
    var sum := SumAll(o, p);
    var h := HashData(o, l, star, a);
    tag := MakeTag(o, sum, last, dollar, h);
  }

  /** SM4_OCB_Encrypt after the initial offset: ciphertext and tag. */
  method OcbEncrypt<W(0, !new), B(0, !new)>(o: Mode<W, B>, start: seq<B>, p: seq<B>, a: seq<B>, out: array<B>)
    requires Usable(o) && Lawful(o) && |start| == 16 && |p| + 16 <= out.Length
    requires |p| >= 16 || |a| >= 16
    modifies out
    ensures IsCipher(o, start, p, out[..|p|]) && out[|p|..|p| + 16] == Tag(o, start, p, a)
    ensures out[|p| + 16..] == old(out[|p| + 16..])
  {
    assert LawsOf(o, 2);
    TableEmpty(|p|, |a|);
    var star, dollar, l := BuildTable(o, TableFor(|p|, |a|));
    forall k | 0 < k && (k <= |p| / 16 || k <= |a| / 16) ensures Ntz(k) < |l| { TableServes(|p|, |a|, k); }
    var last := SealAll(o, l, star, start, p, out);
    var tag := TagOf(o, l, star, dollar, start, p, a, last);
    ghost var before := out[..];
    WriteAt(out, |p|, tag);
    SpliceParts(before, |p|, tag, out[..]);
  }

  // ----- decryption -----

  method OpenAt<W(0, !new), B(0, !new)>(s: Suite<W, B>, out: array<B>, p: nat, off: seq<B>)
    requires Keyed(s) && |off| == 16 && p + 16 <= out.Length
    modifies out
    ensures out[..] == Splice(old(out[..]), p, Xor(s.xor, s.dec(Xor(s.xor, old(out[p..p + 16]), off)), off))
  {
    ghost var b := out[p..p + 16];
    XorAt(s.xor, out, p, off);
    assert Runs(s, Xor(s.xor, b, off));
    Decrypt(s.core, s.key, out, p, out, p);
    XorAt(s.xor, out, p, off);
  }

  /** The first j blocks of the buffer are opened; the other whole blocks, up to full, are ciphertext still. */
  ghost predicate OpenedTo<W(!new), B(!new)>(o: Mode<W, B>, start: seq<B>, c: seq<B>, full: nat, out: seq<B>, j: nat) {
    && Usable(o) && |start| == 16 && 16 * j <= full <= |c| <= |out| && out[16 * j..full] == c[16 * j..full]
    && forall k: nat :: k < j ==> OpenedAt(o, start, c, out, k)
  }

  lemma OpenNext<W(!new), B(!new)>(o: Mode<W, B>, start: seq<B>, c: seq<B>, full: nat, out: seq<B>, j: nat,
                                   out': seq<B>)
    requires OpenedTo(o, start, c, full, out, j) && 16 * j + 16 <= full
    requires out' == Splice(out, 16 * j, Opened(o, start, Block(c, j), j))
    ensures OpenedTo(o, start, c, full, out', j + 1)
  {
    forall k: nat | k < j + 1 ensures OpenedAt(o, start, c, out', k) {
      if k < j {
        assert OpenedAt(o, start, c, out, k);
        assert Block(out', k) == Block(out, k);
      } else {
        assert Block(out', k) == Opened(o, start, Block(c, j), j);
      }
    }
    assert out'[16 * (j + 1)..full] == out[16 * j..full][16..];
    assert c[16 * (j + 1)..full] == c[16 * j..full][16..];
  }

  lemma CipherThere<W(!new), B(!new)>(o: Mode<W, B>, start: seq<B>, c: seq<B>, full: nat, out: seq<B>, j: nat)
    requires OpenedTo(o, start, c, full, out, j) && 16 * j + 16 <= full
    ensures out[16 * j..16 * j + 16] == Block(c, j)
  {
    assert out[16 * j..16 * j + 16] == out[16 * j..full][..16];
    assert Block(c, j) == c[16 * j..full][..16];
  }

  /** Block i opened in place under its offset. */
  method OpenStep<W(0, !new), B(0, !new)>(o: Mode<W, B>, ghost start: seq<B>, ghost c: seq<B>, ghost full: nat,
                                          out: array<B>,
      i: nat, offset: seq<B>)
    requires OpenedTo(o, start, c, full, out[..], i) && 16 * i + 16 <= full && AtOffset(o, start, i + 1, offset)
    requires |offset| == 16
    modifies out
    ensures OpenedTo(o, start, c, full, out[..], i + 1) && out[full..] == old(out[full..])
  {
    ghost var before := out[..];
    assert OffsetIs(o, start, i + 1, offset);
    CipherThere(o, start, c, full, before, i);
    OpenAt(o.s, out, i * 16, offset);
    OpenNext(o, start, c, full, before, i, out[..]);
    SpliceAfter(before, 16 * i, Opened(o, start, Block(c, i), i), out[..], full);
  }

  /** The main loop of decryption. */
  method OpenBlocks<W(0, !new), B(0, !new)>(o: Mode<W, B>, l: seq<seq<B>>, start: seq<B>, ghost c: seq<B>,
                                            out: array<B>, m: nat)
      returns (offset: seq<B>)
    requires IsTable(o, l) && OpenedTo(o, start, c, 16 * m, out[..], 0) && forall k :: 0 < k <= m ==> Ntz(k) < |l|
    modifies out
    ensures AtOffset(o, start, m, offset) && OpenedTo(o, start, c, 16 * m, out[..], m)
    ensures out[16 * m..] == old(out[16 * m..])
  {
    offset := start;
    assert OffsetIs(o, start, 0, offset);
    var i := 0;
    while i < m
      invariant 0 <= i <= m && AtOffset(o, start, i, offset) && OpenedTo(o, start, c, 16 * m, out[..], i)
      invariant out[16 * m..] == old(out[..])[16 * m..]
    {
      offset := NextOffset(o, l, start, i, offset);
      OpenStep(o, start, c, 16 * m, out, i, offset);
      i := i + 1;
    }
  }

  /** The last bytes t of the ciphertext, and the last offset. */
  method OpenTail<W(0, !new), B(0, !new)>(o: Mode<W, B>, star: seq<B>, ghost start: seq<B>, ghost c: seq<B>,
                                          t: seq<B>, full: nat, out: array<B>, offset: seq<B>)
      returns (last: seq<B>)
    requires Usable(o) && |start| == 16 && star == LStar(o) && AtOffset(o, start, |c| / 16, offset)
    requires t == Tail(c) && full == |c| - |t|
    requires OpenedTo(o, start, c, 16 * (|c| / 16), out[..], |c| / 16)
    modifies out
    ensures last == LastOffset(o, start, |c|) && IsPlain(o, start, c, out[..|c|])
    ensures out[|c|..] == old(out[|c|..])
  {
    ghost var before := out[..];
    assert OffsetIs(o, start, |c| / 16, offset);
    last := offset;
    if |t| > 0 {
      last := Xor(o.s.xor, offset, star);
      PadOpen(o.s, out, full, last, t);
    }
    PlainDone(o, start, c, before, out[..]);
  }

  /** The pad, and the last bytes xored into it. */
  method PadOpen<W(0, !new), B(0, !new)>(s: Suite<W, B>, out: array<B>, p: nat, off: seq<B>, t: seq<B>)
    requires Keyed(s) && |off| == 16 && |t| < 16 && p + |t| <= out.Length
    modifies out
    ensures out[..p] == old(out[..p]) && out[p..p + |t|] == Xor(s.xor, s.enc(off)[..|t|], t)
    ensures out[p + |t|..] == old(out[p + |t|..])
  {
    var pad := EncryptOne(s, off);
    ghost var before := out[..];
    WriteAt(out, p, Xor(s.xor, pad[..|t|], t));
    SpliceParts(before, p, Xor(s.xor, pad[..|t|], t), out[..]);
  }

  lemma PlainDone<W(!new), B(!new)>(o: Mode<W, B>, start: seq<B>, c: seq<B>, before: seq<B>, out: seq<B>)
    requires OpenedTo(o, start, c, 16 * (|c| / 16), before, |c| / 16) && |out| == |before|
    requires out[..|c| - |c| % 16] == before[..|c| - |c| % 16]
    requires out[|c| - |c| % 16..|c|] == Padded(o, start, Tail(c), |c|)
    ensures IsPlain(o, start, c, out[..|c|])
  {
    var p, full := out[..|c|], |c| - |c| % 16;
    forall j: nat | 16 * j + 16 <= |c| ensures OpenedAt(o, start, c, p, j) {
      assert OpenedAt(o, start, c, before, j);
      assert 16 * j + 16 <= full;
      SameBlocks(p, out, before, full, j);
    }
  }

  /** Two buffers that agree up to full have the same blocks there. */
  lemma SameBlocks<B>(p: seq<B>, out: seq<B>, before: seq<B>, full: nat, j: nat)
    requires 16 * j + 16 <= full <= |p| <= |out| == |before| && p == out[..|p|] && out[..full] == before[..full]
    ensures Block(p, j) == Block(before, j)
  {
    assert Block(p, j) == out[..full][16 * j..16 * j + 16];
    assert Block(before, j) == before[..full][16 * j..16 * j + 16];
  }

  /** Bitwise or is zero only of zeros; xor is zero only of equal bytes. */
  ghost predicate Detects<W(!new), B(!new)>(o: Mode<W, B>) {
    && (forall a: B, b: B :: o.or(a, b) == o.s.zero <==> a == o.s.zero && b == o.s.zero)
    && (forall a: B, b: B :: o.s.xor(a, b) == o.s.zero <==> a == b)
  }

  /** The laws behind a bound variable, so that only proofs that name them see inside. */
  ghost predicate Lawful<W(!new), B(!new)>(o: Mode<W, B>) {
    forall k: nat :: k == 2 ==> LawsOf(o, k)
  }

  ghost predicate LawsOf<W(!new), B(!new)>(o: Mode<W, B>, operands: nat) {
    Neutral(o.s.xor, o.s.zero) && Detects(o)
  }

  /** The or of the differences: zero exactly when the tags agree. */
  method Compare<W(!new), B(!new)>(o: Mode<W, B>, tag: seq<B>, given: seq<B>) returns (diff: B)
    requires Detects(o) && |tag| == |given| == 16
    ensures diff == o.s.zero <==> tag == given
  {
    var sum := Xor(o.s.xor, tag, given);
    diff := o.s.zero;
    var i := 0;
    while i < 16
      invariant 0 <= i <= 16 && (diff == o.s.zero <==> forall k :: 0 <= k < i ==> sum[k] == o.s.zero)
    {
      diff := o.or(diff, sum[i]);
      i := i + 1;
    }
    if diff == o.s.zero { assert forall k :: 0 <= k < 16 ==> sum[k] == o.s.zero; }
  }

  method OpenAll<W(0, !new), B(0, !new)>(o: Mode<W, B>, l: seq<seq<B>>, star: seq<B>, start: seq<B>, c: seq<B>,
                                         out: array<B>)
      returns (last: seq<B>)
    requires IsTable(o, l) && star == LStar(o) && |start| == 16 && |c| <= out.Length
    requires forall k :: 0 < k <= |c| / 16 ==> Ntz(k) < |l|
    modifies out
    ensures last == LastOffset(o, start, |c|) && IsPlain(o, start, c, out[..|c|]) && out[|c|..] == old(out[|c|..])
  {
    var full := |c| - |c| % 16;
    ghost var before := out[..];
    WriteAt(out, 0, c[..full]);
    SpliceAfter(before, 0, c[..full], out[..], |c|);
    before := out[..];
    var offset := OpenBlocks(o, l, start, c, out, |c| / 16);
    FurtherOn(out[..], before, full, |c|);
    last := OpenTail(o, star, start, c, c[full..], full, out, offset);
  }

  /** q is c decrypted, and diff is zero exactly when given is the tag of q. */
  ghost predicate Verdict<W(!new), B(!new)>(o: Mode<W, B>, start: seq<B>, c: seq<B>, given: seq<B>, a: seq<B>,
                                            q: seq<B>, diff: B) {
    IsPlain(o, start, c, q) && (diff == o.s.zero <==> given == Tag(o, start, q, a))
  }

  /** Verdict behind a bound variable, so that only proofs that name it see inside. */
  ghost predicate Decided<W(!new), B(!new)>(o: Mode<W, B>, start: seq<B>, c: seq<B>, given: seq<B>, a: seq<B>,
                                            q: seq<B>, diff: B) {
    forall k: nat :: k == |c| ==> DecidedAt(o, start, c, given, a, q, diff, k)
  }

  ghost predicate DecidedAt<W(!new), B(!new)>(o: Mode<W, B>, start: seq<B>, c: seq<B>, given: seq<B>, a: seq<B>,
                                              q: seq<B>, diff: B, k: nat) {
    Verdict(o, start, c, given, a, q, diff)
  }

  /** SM4_OCB_Decrypt after the initial offset: the message, and zero exactly when the tag is the message's. */
  method OcbDecrypt<W(0, !new), B(0, !new)>(o: Mode<W, B>, start: seq<B>, c: seq<B>, given: seq<B>, a: seq<B>,
                                            out: array<B>)
      returns (diff: B)
    requires Usable(o) && Lawful(o) && |start| == 16 && |given| == 16 && |c| <= out.Length
    requires |c| >= 16 || |a| >= 16
    modifies out
    ensures Decided(o, start, c, given, a, out[..|c|], diff) && out[|c|..] == old(out[|c|..])
  {
    assert LawsOf(o, 2);
    TableEmpty(|c|, |a|);
    var star, dollar, l := BuildTable(o, TableFor(|c|, |a|));
    forall k | 0 < k && (k <= |c| / 16 || k <= |a| / 16) ensures Ntz(k) < |l| { TableServes(|c|, |a|, k); }
    var last := OpenAll(o, l, star, start, c, out);
    var tag := TagOf(o, l, star, dollar, start, out[..|c|], a, last);
    diff := Compare(o, tag, given);
  }

  // ----- doubling and the initial offset, over the byte operations they use -----

  /** Each byte with the next, the last with the first. */
  function Doubled<B>(up: (B, B) -> B, lastUp: (B, B) -> B, b: seq<B>): (d: seq<B>)
    requires |b| == 16
    ensures |d| == 16 && d[15] == lastUp(b[15], b[0]) && forall i :: 0 <= i < 15 ==> d[i] == up(b[i], b[i + 1])
  {
    seq(16, i requires 0 <= i < 16 => if i < 15 then up(b[i], b[i + 1]) else lastUp(b[15], b[0]))
  }

  /** double_arr: in place, each byte read before the one before it is written. */
  method DoubleArr<B>(up: (B, B) -> B, lastUp: (B, B) -> B, s: array<B>)
    requires s.Length == 16
    modifies s
    ensures s[..] == Doubled(up, lastUp, old(s[..]))
  {
    ghost var b := s[..];
    var first := s[0];
    var i := 0;
    while i < 15
      invariant 0 <= i <= 15
      invariant forall k :: 0 <= k < i ==> s[k] == up(b[k], b[k + 1])
      invariant forall k :: i <= k < 16 ==> s[k] == b[k]
    {
      s[i] := up(s[i], s[i + 1]);
      i := i + 1;
    }
    s[15] := lastUp(s[15], first);
  }

  /** The byte 1, the low six bits of a byte as a number, a byte without them, and two bytes joined at a bit. */
  datatype NonceOps<!B> = NonceOps(one: B, bottom: B -> nat, clear: B -> B, joined: (B, B, nat) -> B)

  /** The nonce with a one before it and zeros before that. */
  function NonceBlock<B>(zero: B, one: B, nonce: seq<B>): (b: seq<B>)
    requires |nonce| <= 15
    ensures |b| == 16
  {
    Zeros(zero, 15 - |nonce|) + [one] + nonce
  }

  /** Ktop followed by the xor of its first eight bytes with its second to ninth. */
  function Stretch<B>(xor: (B, B) -> B, k: seq<B>): (st: seq<B>)
    requires |k| == 16
    ensures |st| == 24
  {
    k + Xor(xor, k[0..8], k[1..9])
  }

  /** Sixteen bytes of the stretch from bit b on. */
  function Window<B>(joined: (B, B, nat) -> B, st: seq<B>, b: nat): (w: seq<B>)
    requires |st| == 24 && b < 64
    ensures |w| == 16 && forall i :: 0 <= i < 16 ==> w[i] == joined(st[i + b / 8], st[i + b / 8 + 1], b % 8)
  {
    seq(16, i requires 0 <= i < 16 => joined(st[i + b / 8], st[i + b / 8 + 1], b % 8))
  }

  /** Offset_0 of section 4.2 of RFC 7253. */
  ghost function Start<W(!new), B(!new)>(s: Suite<W, B>, n: NonceOps<B>, nonce: seq<B>): (w: seq<B>)
    requires Keyed(s) && |nonce| <= 15 && forall x: B :: n.bottom(x) < 64
    ensures |w| == 16
  {
    var b := NonceBlock(s.zero, n.one, nonce);
    Window(n.joined, Stretch(s.xor, s.enc(b[15 := n.clear(b[15])])), n.bottom(b[15]))
  }

  /** The window is cut in place: what is read lies at or after what is written. */
  method CutWindow<B>(joined: (B, B, nat) -> B, offset: array<B>, bottom: nat)
    requires offset.Length == 24 && bottom < 64
    modifies offset
    ensures offset[..16] == Window(joined, old(offset[..]), bottom)
  {
    var shift, bits := bottom / 8, bottom % 8;
    ghost var st := offset[..];
    var i := 0;
    while i < 16
      invariant 0 <= i <= 16
      invariant forall k :: 0 <= k < i ==> offset[k] == joined(st[k + shift], st[k + shift + 1], bits)
      invariant forall k :: i <= k < 24 ==> offset[k] == st[k]
    {
      offset[i] := joined(offset[i + shift], offset[i + shift + 1], bits);
      i := i + 1;
    }
  }

  /** Eight more bytes: a copy of the first eight, xored with their right neighbours. */
  method StretchArr<B>(xor: (B, B) -> B, offset: array<B>)
    requires offset.Length == 24
    modifies offset
    ensures offset[..] == Stretch(xor, old(offset[..16]))
  {
    ghost var k := offset[..16];
    for i := 0 to 8
      invariant forall q :: 0 <= q < 16 ==> offset[q] == k[q]
      invariant forall q :: 16 <= q < 16 + i ==> offset[q] == k[q - 16]
    {
      offset[16 + i] := offset[i];
    }
    for i := 0 to 8
      invariant forall q :: 0 <= q < 16 ==> offset[q] == k[q]
      invariant forall q :: 16 <= q < 16 + i ==> offset[q] == xor(k[q - 16], k[q - 15])
      invariant forall q :: 16 + i <= q < 24 ==> offset[q] == k[q - 16]
    {
      offset[16 + i] := xor(offset[16 + i], offset[i + 1]);
    }
    assert offset[..16] == k && offset[16..] == Xor(xor, k[0..8], k[1..9]);
  }

  /** The start of SM4_OCB_Encrypt and SM4_OCB_Decrypt: the nonce to the initial offset. */
  method InitialOffset<W(0, !new), B(0, !new)>(s: Suite<W, B>, n: NonceOps<B>, nonce: seq<B>) returns (start: seq<B>)
    requires Keyed(s) && |nonce| <= 15 && forall x: B :: n.bottom(x) < 64
    ensures start == Start(s, n, nonce)
  {
    var offset := NonceArr(s.zero, n.one, nonce);
    ghost var b := NonceBlock(s.zero, n.one, nonce);
    var bottom := n.bottom(offset[15]);
    offset[15] := n.clear(offset[15]);
    KeyTop(s, offset, b[15 := n.clear(b[15])]);
    StretchArr(s.xor, offset);
    CutWindow(n.joined, offset, bottom);
    start := offset[..16];
  }

  method NonceArr<B(0)>(zero: B, one: B, nonce: seq<B>) returns (offset: array<B>)
    requires |nonce| <= 15
    ensures fresh(offset) && offset.Length == 24 && offset[..16] == NonceBlock(zero, one, nonce)
  {
    offset := new B[24](_ => zero);
    var index := 15 - |nonce|;
    offset[index] := one;
    WriteAt(offset, index + 1, nonce);
  }

  method KeyTop<W(0, !new), B(0, !new)>(s: Suite<W, B>, offset: array<B>, ghost b: seq<B>)
    requires Keyed(s) && offset.Length == 24 && |b| == 16 && offset[..16] == b
    modifies offset
    ensures offset[..16] == s.enc(b)
  {
    assert offset[0..16] == b && Runs(s, b);
    Encrypt(s.core, s.key, offset, 0, offset, 0);
  }

  // ----- the two programs -----

  /** What the programs ask of the cipher, of bytes and of the nonce. */
  ghost predicate Ready<W(!new), B(!new)>(o: Mode<W, B>, n: NonceOps<B>, nonce: seq<B>) {
    Usable(o) && Lawful(o) && |nonce| <= 15 && forall x: B :: n.bottom(x) < 64
  }

  /** text is what encryption makes of p: ciphertext, then tag. */
  ghost predicate IsSealed<W(!new), B(!new)>(o: Mode<W, B>, n: NonceOps<B>, nonce: seq<B>, p: seq<B>, a: seq<B>,
                                             text: seq<B>) {
    && Ready(o, n, nonce) && |text| == |p| + 16
    && IsCipher(o, Start(o.s, n, nonce), p, text[..|p|]) && text[|p|..] == Tag(o, Start(o.s, n, nonce), p, a)
  }

  /** SM4_OCB_Encrypt. */
  method SealMessage<W(0, !new), B(0, !new)>(o: Mode<W, B>, n: NonceOps<B>, nonce: seq<B>, p: seq<B>, a: seq<B>,
                                             out: array<B>)
    requires Ready(o, n, nonce) && (|p| >= 16 || |a| >= 16) && |p| + 16 <= out.Length
    modifies out
    ensures IsSealed(o, n, nonce, p, a, out[..|p| + 16]) && out[|p| + 16..] == old(out[|p| + 16..])
  {
    var start := InitialOffset(o.s, n, nonce);
    OcbEncrypt(o, start, p, a, out);
    assert out[..|p| + 16][..|p|] == out[..|p|] && out[..|p| + 16][|p|..] == out[|p|..|p| + 16];
  }

  /** SM4_OCB_Decrypt: zero exactly when the last 16 bytes are the tag of what was decrypted. */
  method OpenMessage<W(0, !new), B(0, !new)>(o: Mode<W, B>, n: NonceOps<B>, nonce: seq<B>, text: seq<B>, a: seq<B>,
                                             out: array<B>)
      returns (diff: B)
    requires Ready(o, n, nonce) && |text| >= 16 && (|text| >= 32 || |a| >= 16) && |text| <= out.Length + 16
    modifies out
    ensures var m := |text| - 16;
      Decided(o, Start(o.s, n, nonce), text[..m], text[m..], a, out[..m], diff) && out[m..] == old(out[m..])
  {
    var m := |text| - 16;
    var c, given := text[..m], text[m..];
    assert |c| == m && |given| == 16;
    var start := InitialOffset(o.s, n, nonce);
    diff := OcbDecrypt(o, start, c, given, a, out);
  }

  /** Main result: opening what was sealed, with the same nonce and associated data, gives the message back and accepts
      its tag, for every length. */
  lemma OpenSealedMessage<W(!new), B(!new)>(o: Mode<W, B>, n: NonceOps<B>, nonce: seq<B>, p: seq<B>, a: seq<B>,
                                            text: seq<B>, q: seq<B>, diff: B)
    requires Good(o.s) && IsSealed(o, n, nonce, p, a, text)
    requires var m := |text| - 16; Decided(o, Start(o.s, n, nonce), text[..m], text[m..], a, q, diff)
    ensures q == p && diff == o.s.zero
  {
    assert DecidedAt(o, Start(o.s, n, nonce), text[..|p|], text[|p|..], a, q, diff, |p|);
    OcbBack(o, Start(o.s, n, nonce), p, text[..|p|], q);
  }
}
