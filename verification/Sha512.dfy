/** SHA-512: sha512_init, sha512_update and sha512_final of demo/crypt/crypt.c, against FIPS 180-4. */
module Sha512 {
  import opened Arith
  import opened Bytes
  import opened Collections
  import opened HashStream
  import opened Sha512Block
  import opened Sha512Words

  /** The bound the program asserts on the number of bytes. */
  const LIMIT: nat := 0x100_0000_0000_0000

  /** The last sixteen bytes of the last block: a zero word and the length in bits. */
  ghost function Field(n: nat): (b: seq<nat>)
    ensures |b| == 16
  {
    Zeros<nat>(0, WIDE) + BigEndian(8 * n, WIDE)
  }

  /** Bytes put one after another into the rest of a block. */
  lemma {:induction false} CutChunk(m: seq<nat>, bs: seq<seq<nat>>, rest: seq<nat>, x: seq<nat>)
    requires Cut(m, 128, bs, rest) && |rest| + |x| <= 128
    ensures |rest| + |x| < 128 ==> Cut(m + x, 128, bs, rest + x)
    ensures |rest| + |x| == 128 ==> Cut(m + x, 128, bs + [rest + x], [])
  {
    FlatNext(bs, rest + x);
    assert m + x == Flat(bs) + (rest + x);
  }

  /** What is left of a cut message has the length modulo the block size. */
  lemma RestLength(m: seq<nat>, bs: seq<seq<nat>>, rest: seq<nat>)
    requires Cut(m, 128, bs, rest)
    ensures |m| % 128 == |rest|
  {
    FlatSize(bs, 128);
  }

  class Sha512State {
    var chain: Regs<int>
    const block: array<nat>
    var nbytes: nat
    const ks: seq<int>
    const iv: Regs<int>
    ghost const f: (Regs<int>, seq<nat>) -> Regs<int>
    ghost var fed: seq<nat>
    ghost var blocks: seq<seq<nat>>

    ghost predicate Ready()
      reads this, block
    {
      block.Length == 128 && Octets(block[..]) && |ks| == WORDS && Tied()
    }

    /** f is the compression function; behind a bound variable, so that only proofs that name it see inside. */
    ghost predicate Tied()
      reads this
    {
      forall k: seq<int> :: k == ks ==> f == Compressor(k)
    }

    /** All that was fed is in the chaining value, but for what is in the block. */
    ghost predicate Valid()
      reads this, block
    {
      && Ready() && nbytes == |fed| && chain == Fold(f, iv, blocks)
      && Cut(fed, 128, blocks, block[..nbytes % 128])
    }

    /** sha512_init. */
    constructor (ks: seq<int>, iv: Regs<int>)
      requires |ks| == WORDS
      ensures Valid() && fed == [] && fresh(block) && this.ks == ks && this.iv == iv
    {
      this.ks := ks;
      this.iv := iv;
      f := Compressor(ks);
      chain := iv;
      block := new nat[128](_ => 0);
      nbytes := 0;
      fed := [];
      blocks := [];
      new;
      assert block[..0] == [];
    }

    /** memcpy into the block. */
    method Copy(at: nat, data: seq<nat>)
      requires at + |data| <= block.Length && Octets(block[..]) && Octets(data)
      modifies block
      ensures block[..at] == old(block[..at]) && block[at..at + |data|] == data && Octets(block[..])
    {
      var k := 0;
      while k < |data|
        invariant 0 <= k <= |data| && block[..at] == old(block[..at]) && Octets(block[..])
        invariant forall q :: at <= q < at + k ==> block[q] == data[q - at]
      {
        block[at + k] := data[k];
        k := k + 1;
      }
    }

    /** The block as words of memory. */
    method ReadWords() returns (w: array<int>)
      requires block.Length == 128
      ensures fresh(w) && w.Length == 16 && w[..] == MemoryWords(block[..])
    {
      w := new int[16];
      var i := 0;
      while i < 16
        invariant 0 <= i <= 16
        invariant forall k :: 0 <= k < i ==> w[k] == FromLittle(block[..][8 * k..8 * k + 8])
      {
        w[i] := FromLittle(block[8 * i..8 * i + 8]);
        assert block[8 * i..8 * i + 8] == block[..][8 * i..8 * i + 8];
        i := i + 1;
      }
    }

    method WriteWords(w: array<int>)
      requires block.Length == 128 && w.Length == 16 && Octets(block[..])
      modifies block
      ensures Octets(block[..])
    {
      var i := 0;
      while i < 16
        invariant 0 <= i <= 16 && Octets(block[..])
      {
        Copy(8 * i, LittleEndian(w[i] % TWO64, 8));
        i := i + 1;
      }
    }

    /** sha512_process_block: the block is left holding the last words of the message schedule. */
    method Process()
      requires Ready()
      modifies this`chain, block
      ensures Ready() && chain == f(old(chain), old(block[..]))
    {
      ghost var b := block[..];
      assert f == Compressor(ks);
      CompressesBytes(ks, chain, b);
      var w := ReadWords();
      chain := ProcessBlock(Program(), ks, chain, w);
      WriteWords(w);
    }

    /** One turn of the loop of sha512_update: as much as fits into the block. */
    method Accept(data: seq<nat>) returns (accept: nat)
      requires Valid() && |data| > 0 && Octets(data)
      modifies this`chain, this`nbytes, this`fed, this`blocks, block
      ensures Valid() && 0 < accept <= |data| && fed == old(fed) + data[..accept]
    {
      var fill := nbytes % 128;
      accept := 128 - fill;
      if accept > |data| { accept := |data|; }
      ghost var rest := block[..fill];
      var x := data[..accept];
      CutChunk(fed, blocks, rest, x);
      nbytes := nbytes + accept;
      Copy(fill, x);
      fed := fed + x;
      assert block[..fill + accept] == rest + x;
      if fill + accept == 128 {
        assert block[..] == rest + x;
        FoldNext(f, iv, blocks, rest + x);
        blocks := blocks + [rest + x];
        Process();
        RestLength(fed, blocks, []);
        assert block[..0] == [];
      } else {
        RestLength(fed, blocks, rest + x);
      }
    }

    /** sha512_update. */
    method Update(data: seq<nat>)
      requires Valid() && nbytes + |data| < LIMIT && Octets(data)
      modifies this`chain, this`nbytes, this`fed, this`blocks, block
      ensures Valid() && fed == old(fed) + data
    {
      ghost var before := fed;
      var i := 0;
      assert before + data[..i] == before;
      while i < |data|
        invariant 0 <= i <= |data| && Valid() && fed == before + data[..i]
      {
        i := AcceptFrom(data, i, before);
      }
      assert data[..i] == data;
    }

    method AcceptFrom(data: seq<nat>, i: nat, ghost before: seq<nat>) returns (next: nat)
      requires Valid() && i < |data| && Octets(data) && fed == before + data[..i]
      modifies this`chain, this`nbytes, this`fed, this`blocks, block
      ensures Valid() && i < next <= |data| && fed == before + data[..next]
    {
      var accept := Accept(data[i..]);
      next := i + accept;
      Advance(before, data, i, accept);
    }

    /** memset: zeros from place at to place n. */
    method ZeroTo(at: nat, n: nat)
      requires at <= n <= block.Length && Octets(block[..])
      modifies block
      ensures Octets(block[..]) && block[..n] == old(block[..at]) + Zeros<nat>(0, n - at)
    {
      Copy(at, Zeros<nat>(0, n - at));
    }

    /** sha512_final: the digest of what was fed; the state starts again. */
    method Final() returns (digest: seq<nat>)
      requires Valid() && nbytes < LIMIT
      modifies this`chain, this`nbytes, this`fed, this`blocks, block
      ensures IsSha512(ks, iv, old(fed), digest)
      ensures Valid() && fed == []
    {
      ghost var m := fed;
      Finish();
      digest := Output(chain);
      FieldIsStandard(|m|, WIDE);
      assert f == Compressor(ks);
      assert IsSha512At(ks, iv, m, digest, chain);
      Restart();
    }

    /** Padding and the last one or two blocks. */
    method Finish()
      requires Valid() && nbytes < LIMIT
      modifies this`chain, block
      ensures Ready() && IsHash(f, iv, fed, Field(|fed|), 128, chain)
    {
      var fill := nbytes % 128;
      ghost var rest := block[..fill];
      block[fill] := 0x80;
      fill := fill + 1;
      assert block[..fill] == rest + [0x80];
      if fill > 112 {
        FinishTwo(fill, rest);
      } else {
        Last(fill, rest + [0x80]);
        OneBlock(f, iv, fed, Field(|fed|), 128, blocks, rest, chain);
      }
    }

    method FinishTwo(fill: nat, ghost rest: seq<nat>)
      requires Ready() && 112 < fill <= 128 && block[..fill] == rest + [0x80]
      requires nbytes == |fed| && chain == Fold(f, iv, blocks) && Cut(fed, 128, blocks, rest)
      modifies this`chain, block
      ensures Ready() && IsHash(f, iv, fed, Field(|fed|), 128, chain)
    {
      Spill(fill, rest);
      ghost var middle := chain;
      assert block[..0] == [];
      Last(0, []);
      assert [] + Zeros<nat>(0, 112) == Zeros<nat>(0, 112);
      TwoBlocks(f, iv, fed, Field(|fed|), 128, blocks, rest, middle, chain);
    }

    method Spill(fill: nat, ghost rest: seq<nat>)
      requires Ready() && fill <= 128 && block[..fill] == rest + [0x80]
      modifies this`chain, block
      ensures Ready() && |rest| < 128 && chain == f(old(chain), rest + [0x80] + Zeros<nat>(0, 127 - |rest|))
    {
      ZeroTo(fill, 128);
      assert block[..] == block[..128];
      Process();
    }

    /** Zeros, the length of what was fed, and a compression. */
    method Last(fill: nat, ghost start: seq<nat>)
      requires Ready() && fill <= 112 && block[..fill] == start
      modifies this`chain, block
      ensures Ready() && |start| <= 112
      ensures chain == f(old(chain), start + Zeros<nat>(0, 112 - |start|)
        + (Zeros<nat>(0, WIDE) + BigEndian(8 * nbytes, WIDE)))
    {
      ghost var head := start + Zeros<nat>(0, 112 - |start|);
      ZeroTo(fill, 112);
      PutLength(head);
      Process();
    }

    method PutLength(ghost head: seq<nat>)
      requires Ready() && block[..112] == head
      modifies block
      ensures Ready() && block[..] == head + (Zeros<nat>(0, WIDE) + BigEndian(8 * nbytes, WIDE))
    {
      Copy(112, Zeros<nat>(0, WIDE));
      assert block[..120] == head + Zeros<nat>(0, WIDE);
      Copy(120, BigEndian(8 * nbytes, WIDE));
      assert block[..] == block[..120] + block[120..128];
      Regroup(head, Zeros<nat>(0, WIDE), BigEndian(8 * nbytes, WIDE));
    }

    method Restart()
      requires Ready()
      modifies this`chain, this`nbytes, this`fed, this`blocks, block
      ensures Valid() && fed == []
    {
      nbytes := 0;
      chain := iv;
      ZeroTo(0, 128);
      fed := [];
      blocks := [];
      assert block[..0] == [];
    }
  }

  /** The first n words of a chaining value, big-endian. */
  ghost function Digest(w: seq<int>, n: nat): seq<nat>
    requires n <= |w|
  {
    if n == 0 then [] else Digest(w, n - 1) + BigEndian(w[n - 1] % TWO64, WIDE)
  }

  /** The words swapped and copied out as they lie in memory. */
  method Output(r: Regs<int>) returns (digest: seq<nat>)
    ensures digest == Digest(RegWords(r), 8)
  {
    var w := RegWords(r);
    digest := [];
    var i := 0;
    while i < 8
      invariant 0 <= i <= 8 && digest == Digest(w, i)
    {
      SwapStores(w[i]);
      digest := digest + LittleEndian(Swap64(w[i]), WIDE);
      i := i + 1;
    }
  }

  ghost predicate IsSha512At(ks: seq<int>, iv: Regs<int>, m: seq<nat>, digest: seq<nat>, h: Regs<int>) {
    IsHash(Compressor(ks), iv, m, BigEndian(8 * |m|, WIDE + WIDE), 128, h) && digest == Digest(RegWords(h), 8)
  }

  /** The digest of a message by section 6.4 of FIPS 180-4: padded with the 128-bit length, compressed block by block,
      written out big-endian. */
  ghost predicate IsSha512(ks: seq<int>, iv: Regs<int>, m: seq<nat>, digest: seq<nat>) {
    exists h: Regs<int> :: IsSha512At(ks, iv, m, digest, h)
  }

  /** What is hashed: the message, 0x80, zeros, and in the last sixteen bytes the number of bits of the message. */
  lemma PaddedMessage(m: seq<nat>, bs: seq<seq<nat>>, f: seq<nat>, width: nat)
    requires width == WIDE + WIDE && IsPadding(m, BigEndian(8 * |m|, width), 128, bs) && f == Flat(bs)
    requires 8 * |m| < Pow(256, width)
    ensures |f| >= |m| + 17 && f[..|m|] == m && f[|m|] == 0x80
    ensures forall i :: |m| < i < |f| - 16 ==> f[i] == 0
    ensures FromBytes(f[|f| - 16..]) == 8 * |m|
  {
    PaddingForm(m, BigEndian(8 * |m|, width), 128, bs, f);
    BytesRoundTrip(8 * |m|, width);
  }

  /** Eight bytes of the digest make up one word. */
  lemma {:induction false} DigestWord(w: seq<int>, n: nat, i: nat, size: nat)
    requires i < n <= |w| && size == WIDE
    ensures |Digest(w, n)| == 8 * n && FromBytes(Digest(w, n)[8 * i..8 * i + 8]) == w[i] % TWO64
  {
    DigestLength(w, n);
    DigestLength(w, n - 1);
    var d := Digest(w, n - 1);
    if i == n - 1 {
      EightPower(size);
      BytesRoundTrip(w[i] % TWO64, size);
      assert Digest(w, n)[8 * i..8 * i + 8] == BigEndian(w[i] % TWO64, size);
    } else {
      DigestWord(w, n - 1, i, size);
      assert Digest(w, n)[8 * i..8 * i + 8] == d[8 * i..8 * i + 8];
    }
  }

  lemma {:induction false} DigestLength(w: seq<int>, n: nat)
    requires n <= |w|
    ensures |Digest(w, n)| == 8 * n
  {
    if n > 0 { DigestLength(w, n - 1); }
  }

  /** A message has one digest. */
  lemma OneDigest(ks: seq<int>, iv: Regs<int>, m: seq<nat>, d: seq<nat>, d': seq<nat>)
    requires IsSha512(ks, iv, m, d) && IsSha512(ks, iv, m, d')
    ensures d == d'
  {
    var h: Regs<int> :| IsSha512At(ks, iv, m, d, h);
    var h': Regs<int> :| IsSha512At(ks, iv, m, d', h');
    OneHash(Compressor(ks), iv, m, BigEndian(8 * |m|, WIDE + WIDE), 128, h, h');
  }

  ghost predicate AllOctets(parts: seq<seq<nat>>) {
    forall k :: 0 <= k < |parts| ==> Octets(parts[k])
  }

  /** Main result: init, any number of updates and final give the SHA-512 digest of the parts end to end. */
  method HashParts(parts: seq<seq<nat>>) returns (digest: seq<nat>)
    requires AllOctets(parts) && |Flat(parts)| < LIMIT
    ensures IsSha512(RoundConstants(), InitialRegs(), Flat(parts), digest)
  {
    var s := new Sha512State(RoundConstants(), InitialRegs());
    var i := 0;
    while i < |parts|
      invariant 0 <= i <= |parts| && s.Valid() && fresh(s) && fresh(s.block) && s.fed == Flat(parts[..i])
      invariant s.ks == RoundConstants() && s.iv == InitialRegs()
    {
      FlatNext(parts[..i], parts[i]);
      assert parts[..i + 1] == parts[..i] + [parts[i]];
      FlatGrows(parts, i + 1);
      s.Update(parts[i]);
      i := i + 1;
    }
    assert parts[..i] == parts;
    digest := s.Final();
  }

  lemma {:induction false} FlatGrows(parts: seq<seq<nat>>, n: nat)
    requires n <= |parts|
    ensures |Flat(parts[..n])| <= |Flat(parts)|
    decreases |parts| - n
  {
    if n == |parts| {
      assert parts[..n] == parts;
    } else {
      FlatNext(parts[..n], parts[n]);
      assert parts[..n + 1] == parts[..n] + [parts[n]];
      FlatGrows(parts, n + 1);
    }
  }

  lemma Advance(before: seq<nat>, data: seq<nat>, i: nat, n: nat)
    requires i + n <= |data|
    ensures before + data[..i] + data[i..][..n] == before + data[..i + n]
  {
    assert data[..i] + data[i..][..n] == data[..i + n];
    Regroup(before, data[..i], data[i..][..n]);
  }

  lemma Regroup(a: seq<nat>, b: seq<nat>, c: seq<nat>)
    ensures a + b + c == a + (b + c)
  {
  }

  /** The field is the 128-bit length of section 5.1.2 of FIPS 180-4 for every length the program accepts. */
  lemma FieldIsStandard(n: nat, half: nat)
    requires half == 8 && n < LIMIT
    ensures Zeros<nat>(0, half) + BigEndian(8 * n, half) == BigEndian(8 * n, half + half)
  {
    EightPower(half);
    ZeroBytes(half);
    ShortNumber(8 * n, half, half);
  }
}
