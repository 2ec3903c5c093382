/** Cipher block chaining: SM4_CBC_Encrypt and SM4_CBC_Decrypt of lib/gm/source/SM4_Enc.c. */
module Cbc {
  import opened Collections
  import opened Sm4

  /** The block cipher with its key, what it computes on blocks, and bytes as the modes use them. */
  datatype Suite<!W, !B> = Suite(
    core: Core<W, B>, key: seq<B>, enc: seq<B> -> seq<B>, dec: seq<B> -> seq<B>, xor: (B, B) -> B, zero: B)

  ghost predicate XorOk<B(!new)>(xor: (B, B) -> B) {
    && (forall a: B, b: B :: xor(xor(a, b), b) == a)
    && (forall a: B, b: B :: xor(a, xor(b, a)) == b)
    && (forall a: B, b: B :: xor(a, xor(a, b)) == b)
  }

  ghost predicate Runs<W(!new), B(!new)>(s: Suite<W, B>, b: seq<B>) {
    |b| == 16 && |s.key| == 16 && |s.core.fk| == 4 && |s.core.ck| == ROUNDS ==>
      s.enc(b) == Encrypted(s.core, s.key, b) && s.dec(b) == Decrypted(s.core, s.key, b)
  }

  /** enc and dec are the cipher with the key. */
  ghost predicate Keyed<W(!new), B(!new)>(s: Suite<W, B>) {
    && |s.key| == 16 && |s.core.fk| == 4 && |s.core.ck| == ROUNDS
    && (forall b: seq<B> :: Runs(s, b))
    && (forall b: seq<B> :: |b| == 16 ==> |s.enc(b)| == 16)
    && (forall b: seq<B> :: |b| == 16 ==> |s.dec(b)| == 16)
  }

  ghost predicate Good<W(!new), B(!new)>(s: Suite<W, B>) {
    Keyed(s) && Ok(s.core) && XorOk(s.xor)
  }

  /** The cipher can be undone. */
  lemma DecEnc<W(!new), B(!new)>(s: Suite<W, B>, b: seq<B>)
    requires Good(s) && |b| == 16
    ensures s.dec(s.enc(b)) == b
  {
    assert Runs(s, b) && Runs(s, s.enc(b));
    DecryptEncrypt(s.core, s.key, b);
  }

  /** and undoes decryption. */
  lemma EncDec<W(!new), B(!new)>(s: Suite<W, B>, b: seq<B>)
    requires Good(s) && |b| == 16
    ensures s.enc(s.dec(b)) == b
  {
    assert Runs(s, b) && Runs(s, s.dec(b));
    EncryptDecrypt(s.core, s.key, b);
  }

  function Xor<B>(xor: (B, B) -> B, a: seq<B>, b: seq<B>): (c: seq<B>)
    requires |a| == |b|
    ensures |c| == |a| && forall i :: 0 <= i < |a| ==> c[i] == xor(a[i], b[i])
  {
    seq(|a|, i requires 0 <= i < |a| == |b| => xor(a[i], b[i]))
  }

  // ----- the mode, block by block -----

  /** Block j of a message, filled up with zeros. */
  function BlockAt<B>(zero: B, p: seq<B>, j: nat): (b: seq<B>)
    ensures |b| == 16
  {
    seq(16, i requires 0 <= i < 16 => if 16 * j + i < |p| then p[16 * j + i] else zero)
  }

  /** Each block is xored with the ciphertext block before it, the first with the IV, and encrypted. */
  ghost function CipherBlock<W(!new), B(!new)>(s: Suite<W, B>, iv: seq<B>, p: seq<B>, j: nat): (c: seq<B>)
    requires Keyed(s) && |iv| == 16
    ensures |c| == 16
  {
    s.enc(Xor(s.xor, BlockAt(s.zero, p, j), if j == 0 then iv else CipherBlock(s, iv, p, j - 1)))
  }

  /** The cipher undone on a ciphertext block gives, byte by byte, the sum of the message and of the ciphertext sixteen
      bytes before, or the IV. */
  lemma ChainedByte<W(!new), B(!new)>(s: Suite<W, B>, iv: seq<B>, p: seq<B>, j: nat, i: nat)
    requires Good(s) && |iv| == 16 && i < 16
    ensures var before := if j == 0 then iv[i] else CipherBlock(s, iv, p, j - 1)[i];
      s.dec(CipherBlock(s, iv, p, j))[i] == s.xor(if 16 * j + i < |p| then p[16 * j + i] else s.zero, before)
  {
    DecEnc(s, Xor(s.xor, BlockAt(s.zero, p, j), if j == 0 then iv else CipherBlock(s, iv, p, j - 1)));
  }

  /** Enciphered sums with one block agree exactly if the blocks do. */
  lemma EncSame<W(!new), B(!new)>(s: Suite<W, B>, x: seq<B>, y: seq<B>, c: seq<B>)
    requires Good(s) && |x| == |y| == |c| == 16
    ensures s.enc(Xor(s.xor, x, c)) == s.enc(Xor(s.xor, y, c)) <==> x == y
  {
    var u, v := Xor(s.xor, x, c), Xor(s.xor, y, c);
    if s.enc(u) == s.enc(v) {
      DecEnc(s, u);
      DecEnc(s, v);
      XorBack(s.xor, x, y, c);
    }
  }

  /** Two messages that agree before block j agree in their ciphertext before block j, */
  lemma {:induction false} SameBefore<W(!new), B(!new)>(s: Suite<W, B>, iv: seq<B>, p: seq<B>, q: seq<B>, j: nat)
    requires Keyed(s) && |iv| == 16 && AgreeTo(s.zero, p, q, j + 1)
    ensures CipherBlock(s, iv, p, j) == CipherBlock(s, iv, q, j)
  {
    if j > 0 { SameBefore(s, iv, p, q, j - 1); }
    assert BlockAt(s.zero, p, j) == BlockAt(s.zero, q, j);
  }

  ghost predicate AgreeTo<B(!new)>(zero: B, p: seq<B>, q: seq<B>, j: nat) {
    forall i: nat :: i < j ==> BlockAt(zero, p, i) == BlockAt(zero, q, i)
  }

  /** and in block j exactly if they agree in block j. */
  lemma SameChain<W(!new), B(!new)>(s: Suite<W, B>, iv: seq<B>, p: seq<B>, q: seq<B>, j: nat)
    requires Good(s) && |iv| == 16 && AgreeTo(s.zero, p, q, j)
    ensures CipherBlock(s, iv, p, j) == CipherBlock(s, iv, q, j) <==> BlockAt(s.zero, p, j) == BlockAt(s.zero, q, j)
  {
    if j > 0 { SameBefore(s, iv, p, q, j - 1); }
    EncSame(s, BlockAt(s.zero, p, j), BlockAt(s.zero, q, j), if j == 0 then iv else CipherBlock(s, iv, p, j - 1));
  }

  lemma XorBack<B(!new)>(xor: (B, B) -> B, a: seq<B>, b: seq<B>, c: seq<B>)
    requires XorOk(xor) && |a| == |b| == |c| && Xor(xor, a, c) == Xor(xor, b, c)
    ensures a == b
  {
    forall k | 0 <= k < |a| ensures a[k] == b[k] {
      assert Xor(xor, a, c)[k] == xor(a[k], c[k]) && Xor(xor, b, c)[k] == xor(b[k], c[k]);
      assert xor(xor(a[k], c[k]), c[k]) == a[k] && xor(xor(b[k], c[k]), c[k]) == b[k];
    }
  }

  /** The ciphertext block before block j, or the IV. */
  function Before<B>(iv: seq<B>, c: seq<B>, j: nat): (b: seq<B>)
    requires |iv| == 16 && 16 * j <= |c|
    ensures |b| == 16
  {
    if j == 0 then iv else c[16 * (j - 1)..16 * j]
  }

  ghost function PlainBlock<W(!new), B(!new)>(s: Suite<W, B>, iv: seq<B>, c: seq<B>, j: nat): (p: seq<B>)
    requires Keyed(s) && |iv| == 16 && 16 * j + 16 <= |c|
    ensures |p| == 16
  {
    Xor(s.xor, Before(iv, c, j), s.dec(c[16 * j..16 * j + 16]))
  }

  /** Main result: decrypting an encrypted message block by block gives back its blocks. */
  lemma BlockBack<W(!new), B(!new)>(s: Suite<W, B>, iv: seq<B>, p: seq<B>, c: seq<B>, j: nat)
    requires Good(s) && |iv| == 16 && 16 * j + 16 <= |c|
    requires j > 0 ==> c[16 * (j - 1)..16 * j] == CipherBlock(s, iv, p, j - 1)
    requires c[16 * j..16 * j + 16] == CipherBlock(s, iv, p, j)
    ensures PlainBlock(s, iv, c, j) == BlockAt(s.zero, p, j)
  {
    var x := Xor(s.xor, BlockAt(s.zero, p, j), Before(iv, c, j));
    DecEnc(s, x);
    assert Xor(s.xor, Before(iv, c, j), x) == BlockAt(s.zero, p, j);
  }

  // ----- the mode as the program runs it -----

  /** The length of the ciphertext: whole blocks. */
  function CipherLen(n: nat): (r: nat)
    ensures n <= r < n + 16
  {
    (n + 15) / 16 * 16
  }

  lemma LenRounds(n: nat, r: nat)
    requires r == CipherLen(n) / 16
    ensures CipherLen(n) == 16 * r && forall j :: 0 <= j < r ==> 16 * j < n
  {
    assert CipherLen(n) == 16 * ((n + 15) / 16);
  }

  /** memset and memcpy: the next block, filled up with zeros. */
  method TakeBlock<B>(zero: B, plain: seq<B>, j: nat) returns (block: seq<B>)
    requires 16 * j < |plain|
    ensures block == BlockAt(zero, plain, j)
  {
    var start := j * 16;
    var end := if start + 16 > |plain| then |plain| else start + 16;
    block := plain[start..end] + Zeros(zero, 16 - (end - start));
  }

  /** input[i] = a[i] ^ b[i] for a whole block. */
  method XorInto<B>(xor: (B, B) -> B, a: seq<B>, b: seq<B>, input: array<B>)
    requires |a| == |b| == input.Length
    modifies input
    ensures input[..] == Xor(xor, a, b)
  {
    var i := 0;
    while i < input.Length
      invariant 0 <= i <= input.Length && forall k :: 0 <= k < i ==> input[k] == xor(a[k], b[k])
    {
      input[i] := xor(a[i], b[i]);
      i := i + 1;
    }
  }

  /** Write block c at p. */
  method CopyAt<B>(dst: array<B>, p: nat, c: array<B>)
    requires p + c.Length <= dst.Length && c != dst
    modifies dst
    ensures dst[..] == Splice(old(dst[..]), p, c[..])
  {
    var i := 0;
    ghost var before := dst[..];
    while i < c.Length
      invariant 0 <= i <= c.Length
      invariant forall k :: 0 <= k < dst.Length ==> dst[k] == if p <= k < p + i then c[k - p] else before[k]
    {
      dst[p + i] := c[i];
      i := i + 1;
    }
  }

  /** One block: chained with the one before and encrypted. */
  method EncryptBlock<W(0, !new), B(0, !new)>(s: Suite<W, B>, block: seq<B>, prev: seq<B>) returns (c: array<B>)
    requires Keyed(s) && |block| == |prev| == 16
    ensures fresh(c) && c.Length == 16 && c[..] == s.enc(Xor(s.xor, block, prev))
  {
    assert Runs(s, Xor(s.xor, block, prev));
    var input := new B[16];
    XorInto(s.xor, block, prev, input);
    assert input[0..16] == input[..];
    c := new B[16];
    Encrypt(s.core, s.key, input, 0, c, 0);
  }

  /** The first j blocks of the ciphertext are in the buffer. */
  ghost predicate Chained<W(!new), B(!new)>(s: Suite<W, B>, iv: seq<B>, p: seq<B>, out: seq<B>, j: nat) {
    && Keyed(s) && |iv| == 16 && 16 * j <= |out|
    && forall k: nat :: k < j ==> BlockOut(s, iv, p, out, k)
  }

  ghost predicate BlockIs<W(!new), B(!new)>(s: Suite<W, B>, iv: seq<B>, p: seq<B>, out: seq<B>, k: nat) {
    Keyed(s) && |iv| == 16 && HasBlock(out, k, CipherBlock(s, iv, p, k))
  }

  /** BlockIs behind a bound variable, so that only proofs that name it see inside. */
  ghost predicate BlockOut<W(!new), B(!new)>(s: Suite<W, B>, iv: seq<B>, p: seq<B>, out: seq<B>, k: nat) {
    forall m: nat :: m == k ==> BlockIs(s, iv, p, out, m)
  }

  ghost predicate HasBlock<B>(out: seq<B>, k: nat, b: seq<B>) {
    |b| == 16 && forall i: nat :: i < 16 ==> HasByte(out, k, i, b)
  }

  ghost predicate HasByte<B>(out: seq<B>, k: nat, i: nat, b: seq<B>) {
    i < |b| && 16 * k + i < |out| && out[16 * k + i] == b[i]
  }

  /** b was written at block j; nothing before it changed, nor anything after it. */
  ghost predicate Written<B(!new)>(out: seq<B>, j: nat, b: seq<B>, out': seq<B>) {
    && |out'| == |out| && 16 * j + |b| <= |out|
    && (forall i: nat :: i < |b| ==> HasByte(out', j, i, b))
    && (forall k: nat, i: nat, c: seq<B> :: HasByte(out, k, i, c) && k < j && i < 16 ==> HasByte(out', k, i, c))
  }

  lemma SpliceWritten<B(!new)>(out: seq<B>, j: nat, b: seq<B>, out': seq<B>)
    requires 16 * j + |b| <= |out| && |b| <= 16 && out' == Splice(out, 16 * j, b)
    ensures Written(out, j, b, out') && out'[16 * j + |b|..] == out[16 * j + |b|..]
  {
  }

  lemma BlockStays<W(!new), B(!new)>(s: Suite<W, B>, iv: seq<B>, p: seq<B>, out: seq<B>, j: nat, c: seq<B>,
                                     out': seq<B>, k: nat)
    requires BlockOut(s, iv, p, out, k) && Written(out, j, c, out') && k < j
    ensures BlockOut(s, iv, p, out', k)
  {
    assert BlockIs(s, iv, p, out, k);
    forall i: nat | i < 16 ensures HasByte(out', k, i, CipherBlock(s, iv, p, k)) {
      assert HasByte(out, k, i, CipherBlock(s, iv, p, k));
    }
  }

  lemma ChainNext<W(!new), B(!new)>(s: Suite<W, B>, iv: seq<B>, p: seq<B>, out: seq<B>, j: nat, c: seq<B>, out': seq<B>)
    requires Chained(s, iv, p, out, j) && 16 * j + 16 <= |out'| && Written(out, j, c, out')
    requires BlockOut(s, iv, p, out', j)
    ensures Chained(s, iv, p, out', j + 1)
  {
    forall k: nat | k < j + 1 ensures BlockOut(s, iv, p, out', k) {
      if k < j { BlockStays(s, iv, p, out, j, c, out', k); }
    }
  }

  /** The block to chain block j with. */
  ghost predicate PrevIs<W(!new), B(!new)>(s: Suite<W, B>, iv: seq<B>, p: seq<B>, prev: seq<B>, j: nat) {
    Keyed(s) && |iv| == 16 && |prev| == 16 && prev == if j == 0 then iv else CipherBlock(s, iv, p, j - 1)
  }

  ghost predicate IsPrev<W(!new), B(!new)>(s: Suite<W, B>, iv: seq<B>, p: seq<B>, prev: seq<B>, j: nat) {
    forall m: nat :: m == j ==> PrevIs(s, iv, p, prev, m)
  }

  method NextBlock<W(0, !new), B(0, !new)>(s: Suite<W, B>, iv: seq<B>, plain: seq<B>, j: nat, prev: seq<B>)
      returns (c: array<B>)
    requires IsPrev(s, iv, plain, prev, j) && 16 * j < |plain|
    ensures fresh(c) && c.Length == 16 && IsPrev(s, iv, plain, c[..], j + 1)
  {
    PrevKeyed(s, iv, plain, prev, j);
    var block := TakeBlock(s.zero, plain, j);
    c := EncryptBlock(s, block, prev);
    PrevNext(s, iv, plain, prev, j, c[..]);
  }

  lemma PrevKeyed<W(!new), B(!new)>(s: Suite<W, B>, iv: seq<B>, p: seq<B>, prev: seq<B>, j: nat)
    requires IsPrev(s, iv, p, prev, j)
    ensures Keyed(s) && |prev| == 16
  {
    assert PrevIs(s, iv, p, prev, j);
  }

  lemma PrevNext<W(!new), B(!new)>(s: Suite<W, B>, iv: seq<B>, p: seq<B>, prev: seq<B>, j: nat, c: seq<B>)
    requires IsPrev(s, iv, p, prev, j) && |prev| == 16 && c == s.enc(Xor(s.xor, BlockAt(s.zero, p, j), prev))
    ensures IsPrev(s, iv, p, c, j + 1)
  {
    assert PrevIs(s, iv, p, prev, j);
  }

  lemma BlockNow<W(!new), B(!new)>(s: Suite<W, B>, iv: seq<B>, p: seq<B>, out: seq<B>, j: nat, c: seq<B>, out': seq<B>)
    requires IsPrev(s, iv, p, c, j + 1) && Written(out, j, c, out')
    ensures BlockOut(s, iv, p, out', j) && |c| == 16
  {
    assert PrevIs(s, iv, p, c, j + 1);
  }

  /** The loop body: block j encrypted and written at 16 j. */
  method ChainBlock<W(0, !new), B(0, !new)>(s: Suite<W, B>, iv: seq<B>, plain: seq<B>, out: array<B>, j: nat,
                                            prev: seq<B>)
      returns (next: seq<B>)
    requires Chained(s, iv, plain, out[..], j) && 16 * j < |plain| && 16 * j + 16 <= out.Length
    requires IsPrev(s, iv, plain, prev, j)
    modifies out
    ensures Chained(s, iv, plain, out[..], j + 1) && out[16 * j + 16..] == old(out[16 * j + 16..])
    ensures IsPrev(s, iv, plain, next, j + 1)
  {
    var c := NextBlock(s, iv, plain, j, prev);
    ghost var before := out[..];
    CopyAt(out, 16 * j, c);
    next := c[..];
    SpliceWritten(before, j, next, out[..]);
    BlockNow(s, iv, plain, before, j, next, out[..]);
    ChainNext(s, iv, plain, before, j, next, out[..]);
  }

  /** SM4_CBC_Encrypt: the number of bytes written; none when they would not fit. */
  method CbcEncrypt<W(0, !new), B(0, !new)>(s: Suite<W, B>, iv: seq<B>, plain: seq<B>, out: array<B>, cap: nat)
      returns (n: nat)
    requires Keyed(s) && |iv| == 16 && cap <= out.Length
    modifies out
    ensures n == if cap < CipherLen(|plain|) then 0 else CipherLen(|plain|)
    ensures Chained(s, iv, plain, out[..], n / 16) && out[n..] == old(out[n..])
  {
    n := 0;
    if cap < CipherLen(|plain|) { return; }
    var rounds := CipherLen(|plain|) / 16;
    LenRounds(|plain|, rounds);
    var prev := iv;
    var j := 0;
    while j < rounds
      invariant 0 <= j <= rounds && n == 16 * j && Chained(s, iv, plain, out[..], j)
      invariant IsPrev(s, iv, plain, prev, j)
      invariant out[n..] == old(out[..])[n..]
    {
      prev := ChainBlock(s, iv, plain, out, j, prev);
      n := n + 16;
      j := j + 1;
    }
  }

  method DecryptBlock<W(0, !new), B(0, !new)>(s: Suite<W, B>, block: seq<B>, prev: seq<B>) returns (p: array<B>)
    requires Keyed(s) && |block| == |prev| == 16
    ensures fresh(p) && p.Length == 16 && p[..] == Xor(s.xor, prev, s.dec(block))
  {
    assert Runs(s, block);
    var ciphertext, output := new B[16](i requires 0 <= i < 16 => block[i]), new B[16];
    assert ciphertext[0..16] == block;
    Decrypt(s.core, s.key, ciphertext, 0, output, 0);
    p := new B[16];
    XorInto(s.xor, prev, output[..], p);
  }

  function Least(a: nat, b: nat): nat {
    if a < b then a else b
  }

  /** Copy the start of a block to p; nothing when cnt is not positive. */
  method CopySome<B>(dst: array<B>, p: nat, c: array<B>, cnt: int)
    requires cnt <= c.Length && p + cnt <= dst.Length && c != dst
    modifies dst
    ensures cnt >= 0 ==> dst[..] == Splice(old(dst[..]), p, c[..cnt])
    ensures cnt < 0 ==> dst[..] == old(dst[..])
  {
    var k := 0;
    ghost var before := dst[..];
    while k < cnt
      invariant 0 <= k && (cnt >= 0 ==> k <= cnt) && (cnt < 0 ==> k == 0)
      invariant forall q :: 0 <= q < dst.Length ==> dst[q] == if p <= q < p + k then c[q - p] else before[q]
    {
      dst[p + k] := c[k];
      k := k + 1;
    }
  }

  /** The first n bytes of the decrypted text are in the buffer. */
  ghost predicate Unchained<W(!new), B(!new)>(s: Suite<W, B>, iv: seq<B>, c: seq<B>, out: seq<B>, n: nat) {
    && Keyed(s) && |iv| == 16 && n <= |out|
    && forall k: nat, i: nat :: i < 16 && 16 * k + i < n ==> ByteOut(s, iv, c, out, k, i)
  }

  /** Behind a bound variable, as BlockOut. */
  ghost predicate ByteOut<W(!new), B(!new)>(s: Suite<W, B>, iv: seq<B>, c: seq<B>, out: seq<B>, k: nat, i: nat) {
    forall m: nat :: m == k ==> ByteIs(s, iv, c, out, m, i)
  }

  ghost predicate ByteIs<W(!new), B(!new)>(s: Suite<W, B>, iv: seq<B>, c: seq<B>, out: seq<B>, k: nat, i: nat) {
    Keyed(s) && |iv| == 16 && 16 * k + 16 <= |c| && HasByte(out, k, i, PlainBlock(s, iv, c, k))
  }

  /** The loop body: block j decrypted, as much of it as fits. */
  method UnchainBlock<W(0, !new), B(0, !new)>(s: Suite<W, B>, iv: seq<B>, c: seq<B>, out: array<B>, cap: nat, j: nat,
                                              n: nat)
      returns (n': nat)
    requires Keyed(s) && |iv| == 16 && cap <= out.Length && 16 * j + 16 <= |c|
    requires n == Least(cap, 16 * j) && Unchained(s, iv, c, out[..], n)
    modifies out
    ensures n' == Least(cap, 16 * j + 16) && Unchained(s, iv, c, out[..], n') && out[n'..] == old(out[n'..])
  {
    var start := j * 16;
    var end := if start + 16 > cap then cap else start + 16;
    var plaintext := DecryptBlock(s, c[start..start + 16], Before(iv, c, j));
    ghost var before := out[..];
    CopySome(out, n, plaintext, end - start);
    if end >= start {
      SpliceWritten(before, j, plaintext[..end - start], out[..]);
      UnchainNext(s, iv, c, before, j, plaintext[..end - start], out[..]);
      n' := end;
    } else {
      n' := n;
    }
  }

  lemma ByteStays<W(!new), B(!new)>(s: Suite<W, B>, iv: seq<B>, c: seq<B>, out: seq<B>, j: nat, b: seq<B>,
                                    out': seq<B>, k: nat, i: nat)
    requires ByteOut(s, iv, c, out, k, i) && Written(out, j, b, out') && k < j && i < 16
    ensures ByteOut(s, iv, c, out', k, i)
  {
    assert ByteIs(s, iv, c, out, k, i);
  }

  lemma ByteNow<W(!new), B(!new)>(s: Suite<W, B>, iv: seq<B>, c: seq<B>, out: seq<B>, j: nat, b: seq<B>, out': seq<B>,
                                  i: nat)
    requires Keyed(s) && |iv| == 16 && 16 * j + 16 <= |c| && Written(out, j, b, out') && b <= PlainBlock(s, iv, c, j)
    requires i < |b|
    ensures ByteOut(s, iv, c, out', j, i)
  {
    assert HasByte(out', j, i, b);
  }

  lemma UnchainNext<W(!new), B(!new)>(s: Suite<W, B>, iv: seq<B>, c: seq<B>, out: seq<B>, j: nat, b: seq<B>,
                                      out': seq<B>)
    requires Unchained(s, iv, c, out, 16 * j) && 16 * j + 16 <= |c| && Written(out, j, b, out')
    requires b <= PlainBlock(s, iv, c, j)
    ensures Unchained(s, iv, c, out', 16 * j + |b|)
  {
    forall k: nat, i: nat | i < 16 && 16 * k + i < 16 * j + |b| ensures ByteOut(s, iv, c, out', k, i) {
      if k < j {
        ByteStays(s, iv, c, out, j, b, out', k, i);
      } else {
        ByteNow(s, iv, c, out, j, b, out', i);
      }
    }
  }

  /** SM4_CBC_Decrypt: nothing unless whole blocks; else as much of the text as fits. */
  method CbcDecrypt<W(0, !new), B(0, !new)>(s: Suite<W, B>, iv: seq<B>, c: seq<B>, out: array<B>, cap: nat)
      returns (n: nat)
    requires Keyed(s) && |iv| == 16 && cap <= out.Length
    modifies out
    ensures n == if |c| % 16 != 0 then 0 else Least(cap, |c|)
    ensures Unchained(s, iv, c, out[..], n) && out[n..] == old(out[n..])
  {
    n := 0;
    if |c| % 16 != 0 { return; }
    var rounds := |c| / 16;
    var j := 0;
    while j < rounds
      invariant 0 <= j <= rounds && n == Least(cap, 16 * j) && Unchained(s, iv, c, out[..], n)
      invariant out[n..] == old(out[..])[n..]
    {
      n := UnchainBlock(s, iv, c, out, cap, j, n);
      j := j + 1;
    }
  }

  lemma HeldBlock<B>(out: seq<B>, k: nat, b: seq<B>)
    requires HasBlock(out, k, b)
    ensures 16 * k + 16 <= |out| && out[16 * k..16 * k + 16] == b
  {
    assert HasByte(out, k, 15, b);
    forall i: nat | i < 16 ensures out[16 * k + i] == b[i] { assert HasByte(out, k, i, b); }
  }

  lemma BlockHeld<W(!new), B(!new)>(s: Suite<W, B>, iv: seq<B>, p: seq<B>, c: seq<B>, n: nat, k: nat)
    requires Chained(s, iv, p, c, n) && k < n
    ensures 16 * k + 16 <= |c| && c[16 * k..16 * k + 16] == CipherBlock(s, iv, p, k)
  {
    assert BlockOut(s, iv, p, c, k) && BlockIs(s, iv, p, c, k);
    HeldBlock(c, k, CipherBlock(s, iv, p, k));
  }

  lemma PlainBack<W(!new), B(!new)>(s: Suite<W, B>, iv: seq<B>, p: seq<B>, c: seq<B>, n: nat, k: nat)
    requires Good(s) && Chained(s, iv, p, c, n) && k < n
    ensures 16 * k + 16 <= |c| && PlainBlock(s, iv, c, k) == BlockAt(s.zero, p, k)
  {
    BlockHeld(s, iv, p, c, n, k);
    if k > 0 {
      var j := k - 1;
      BlockHeld(s, iv, p, c, n, j);
      assert 16 * j + 16 == 16 * k;
    }
    BlockBack(s, iv, p, c, k);
  }

  lemma ByteBack<W(!new), B(!new)>(s: Suite<W, B>, iv: seq<B>, p: seq<B>, c: seq<B>, out: seq<B>, n: nat, k: nat,
                                   i: nat)
    requires Good(s) && Chained(s, iv, p, c, n) && k < n && i < 16 && 16 * k + i < |p| && ByteOut(s, iv, c, out, k, i)
    ensures 16 * k + i < |out| && out[16 * k + i] == p[16 * k + i]
  {
    PlainBack(s, iv, p, c, n, k);
    assert ByteIs(s, iv, c, out, k, i);
  }

  /** Main result: what CbcDecrypt leaves of what CbcEncrypt left of p, given the length of p, is p: for every
      length, whole blocks or not. */
  lemma CbcBack<W(!new), B(!new)>(s: Suite<W, B>, iv: seq<B>, p: seq<B>, c: seq<B>, out: seq<B>)
    requires Good(s) && |c| == CipherLen(|p|) && Chained(s, iv, p, c, |c| / 16)
    requires |p| <= |out| && Unchained(s, iv, c, out, |p|)
    ensures |c| % 16 == 0 && Least(|p|, |c|) == |p| && out[..|p|] == p
  {
    LenRounds(|p|, |c| / 16);
    forall q: nat | q < |p| ensures out[q] == p[q] {
      var k, i := q / 16, q % 16;
      assert q == 16 * k + i;
      assert ByteOut(s, iv, c, out, k, i);
      ByteBack(s, iv, p, c, out, |c| / 16, k, i);
    }
  }
}
