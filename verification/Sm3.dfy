/** SM3: SM3_init, SM3_process, SM3_done and SM3_256 of lib/gm/source/SM3.c, against GM/T 0004-2012. */
module Sm3 {
  import opened Arith
  import opened Bytes
  import opened Collections
  import opened HashStream
  import opened Sm3Block
  import opened Sm3Words

  const WRAP: nat := 0x1_0000_0000

  /** Bytes of the length field and of a word, and half the bits of a word. */
  const LENGTH: nat := 8
  const WORD: nat := 4
  const HALF_BITS: nat := 16

  /** The last eight bytes of the last block: the program keeps 32 bits of the length. */
  ghost function Field(n: nat): (b: seq<nat>)
    ensures |b| == 8
  {
    Zeros<nat>(0, 4) + BigEndian(8 * n % WRAP, 4)
  }

  /** The words of a block as section 5.3.2 of GM/T 0004-2012 reads them. */
  function BlockWords<W>(o: Ops<W>, b: seq<nat>): (m: seq<W>)
    requires |b| == 64
    ensures |m| == 16 && forall i :: 0 <= i < 16 ==> m[i] == o.load(FromBytes(Word(b, i)))
  {
    seq(16, i requires 0 <= i < 16 => o.load(FromBytes(Word(b, i))))
  }

  /** The compression function of the standard, on bytes. */
  function Compressor<W>(o: Ops<W>): (Regs<W>, seq<nat>) -> Regs<W> {
    (r: Regs<W>, b: seq<nat>) => if |b| == 64 && o.full > 0 then Compressed(o, r, BlockWords(o, b)) else r
  }

  /** Bytes b are word k of s. */
  ghost predicate WordAt(s: seq<nat>, k: nat, b: seq<nat>) {
    4 * k + 4 <= |s| && |b| == WORD && s[4 * k..4 * k + 4] == b
  }

  function Word(s: seq<nat>, k: nat): (b: seq<nat>)
    requires 4 * k + 4 <= |s|
    ensures |b| == WORD
  {
    s[4 * k..4 * k + 4]
  }

  /** Words are written one after the other. */
  method PutWord(a: array<nat>, i: nat, b: seq<nat>)
    requires 4 * i + 4 <= a.Length && |b| == WORD
    modifies a
    ensures WordAt(a[..], i, b) && forall k :: 4 * i + 4 <= k < a.Length ==> a[k] == old(a[k])
    ensures forall k: nat, c: seq<nat> :: k < i && WordAt(old(a[..]), k, c) ==> WordAt(a[..], k, c)
  {
    a[4 * i], a[4 * i + 1], a[4 * i + 2], a[4 * i + 3] := b[0], b[1], b[2], b[3];
  }

  /** BigEndian in place: the four bytes of each of n words the other way round. */
  method TurnBytes(a: array<nat>, n: nat)
    requires a.Length == 4 * n
    modifies a
    ensures forall i: nat :: i < n ==> WordAt(a[..], i, Reversed(Word(old(a[..]), i)))
  {
    ghost var b := a[..];
    var i := 0;
    while i < n
      invariant 0 <= i <= n
      invariant forall k: nat :: k < i ==> WordAt(a[..], k, Reversed(Word(b, k)))
      invariant forall k :: 4 * i <= k < a.Length ==> a[k] == b[k]
    {
      TurnWord(a, i, Word(b, i));
      i := i + 1;
    }
  }

  method TurnWord(a: array<nat>, i: nat, ghost b: seq<nat>)
    requires 4 * i + 4 <= a.Length && WordAt(a[..], i, b)
    modifies a
    ensures WordAt(a[..], i, Reversed(b)) && forall k :: 4 * i + 4 <= k < a.Length ==> a[k] == old(a[k])
    ensures forall k: nat, c: seq<nat> :: k < i && WordAt(old(a[..]), k, c) ==> WordAt(a[..], k, c)
  {
    PutWord(a, i, [a[4 * i + 3], a[4 * i + 2], a[4 * i + 1], a[4 * i]]);
    assert Reversed(b) == [b[3], b[2], b[1], b[0]];
  }

  lemma LengthNext(n: nat, length: nat)
    requires length == 512 * n % WRAP
    ensures (length + 512) % WRAP == 512 * (n + 1) % WRAP
  {
  }

  /** A word of little-endian memory. */
  method ReadWord(a: array<nat>, i: nat, ghost b: seq<nat>) returns (x: nat)
    requires WordAt(a[..], i, Reversed(b))
    ensures x == FromBytes(b)
  {
    ReversedTwice(b);
    x := FromLittle(a[4 * i..4 * i + 4]);
    assert a[4 * i..4 * i + 4] == a[..][4 * i..4 * i + 4];
  }

  class Sm3State<W(0, !new)> {
    var state: Regs<W>
    const buf: array<nat>
    var curlen: nat
    var length: nat
    const o: Ops<W>
    const iv: Regs<W>
    ghost const f: (Regs<W>, seq<nat>) -> Regs<W>
    ghost var fed: seq<nat>
    ghost var blocks: seq<seq<nat>>

    /** f is the compression function; behind a bound variable, so that only proofs that name it see inside. */
    ghost predicate Ready() {
      buf.Length == 64 && forall p: Ops<W> :: p == o ==> Tied(p)
    }

    ghost predicate Tied(p: Ops<W>) {
      Turns(p) && f == Compressor(p)
    }

    /** All that was fed is in the chaining value, but for what is in the buffer. */
    ghost predicate Valid()
      reads this, buf
    {
      && Ready() && curlen < 64 && Cut(fed, 64, blocks, buf[..curlen])
      && state == Fold(f, iv, blocks) && length == 512 * |blocks| % WRAP
    }

    /** SM3_init. */
    constructor (o: Ops<W>, iv: Regs<W>)
      requires Turns(o)
      ensures Valid() && fed == [] && fresh(buf) && this.o == o && this.iv == iv
    {
      this.o := o;
      this.iv := iv;
      f := Compressor(o);
      state := iv;
      buf := new nat[64];
      curlen := 0;
      length := 0;
      fed := [];
      blocks := [];
    }

    /** The words in the buffer, read from little-endian memory. */
    method ReadWords(ghost b: seq<nat>) returns (m: seq<W>)
      requires buf.Length == 64 == |b| && forall i: nat :: i < 16 ==> WordAt(buf[..], i, Reversed(Word(b, i)))
      ensures m == BlockWords(o, b)
    {
      m := [];
      var i := 0;
      while i < 16
        invariant 0 <= i <= 16 && |m| == i
        invariant forall k :: 0 <= k < i ==> m[k] == o.load(FromBytes(Word(b, k)))
      {
        var x := ReadWord(buf, i, Word(b, i));
        m := m + [o.load(x)];
        i := i + 1;
      }
    }

    /** SM3_compress turns the bytes of each word round before it reads them, and leaves them so. */
    method Compress()
      requires Ready()
      modifies this`state, buf
      ensures state == f(old(state), old(buf[..]))
    {
      assert Tied(o);
      ghost var b := buf[..];
      TurnBytes(buf, 16);
      var m := ReadWords(b);
      state := CompressWords(o, state, m);
    }

    /** A full buffer goes into the chaining value. */
    method Flush()
      requires Ready() && curlen == 64 && AllSized(blocks, 64)
      requires state == Fold(f, iv, blocks) && length == 512 * |blocks| % WRAP
      modifies this`state, this`curlen, this`length, this`blocks, buf
      ensures curlen == 0 && blocks == old(blocks) + [old(buf[..])]
      ensures state == Fold(f, iv, blocks) && length == 512 * |blocks| % WRAP
    {
      FoldNext(f, iv, blocks, buf[..]);
      LengthNext(|blocks|, length);
      blocks := blocks + [buf[..]];
      Compress();
      length := (length + 512) % WRAP;
      curlen := 0;
    }

    /** One byte of SM3_process. */
    method Feed(x: nat)
      requires Valid()
      modifies this`state, this`curlen, this`length, this`fed, this`blocks, buf
      ensures Valid() && fed == old(fed) + [x]
    {
      ghost var rest := buf[..curlen];
      CutByte(fed, 64, blocks, rest, x);
      buf[curlen] := x;
      curlen := curlen + 1;
      fed := fed + [x];
      assert buf[..curlen] == rest + [x];
      if curlen == 64 {
        assert buf[..] == rest + [x];
        Flush();
        assert buf[..0] == [];
      }
    }

    /** SM3_process. */
    method Process(bytes: seq<nat>)
      requires Valid()
      modifies this`state, this`curlen, this`length, this`fed, this`blocks, buf
      ensures Valid() && fed == old(fed) + bytes
    {
      var i := 0;
      while i < |bytes|
        invariant 0 <= i <= |bytes| && Valid() && fed == old(fed) + bytes[..i]
      {
        Feed(bytes[i]);
        assert bytes[..i + 1] == bytes[..i] + [bytes[i]];
        i := i + 1;
      }
      assert bytes[..i] == bytes;
    }

    /** Zeros up to place n. */
    method ZeroTo(n: nat)
      requires Ready() && curlen <= n <= 64
      modifies this`curlen, buf
      ensures curlen == n && buf[..n] == old(buf[..curlen]) + Zeros<nat>(0, n - old(curlen))
    {
      ghost var rest := buf[..curlen];
      while curlen < n
        invariant |rest| <= curlen <= n && buf[..curlen] == rest + Zeros<nat>(0, curlen - |rest|)
        modifies this`curlen, buf
      {
        ghost var before := buf[..curlen];
        buf[curlen] := 0;
        curlen := curlen + 1;
        assert buf[..curlen] == before + [0];
      }
    }

    /** The bytes after 0x80 when they leave no room for the length: zeros, and a compression. */
    method Spill(ghost rest: seq<nat>)
      requires Ready() && 56 < curlen <= 64 && buf[..curlen] == rest + [0x80]
      modifies this`state, this`curlen, buf
      ensures curlen == 0 && |rest| + 1 + (63 - |rest|) == 64
      ensures state == f(old(state), rest + [0x80] + Zeros<nat>(0, 63 - |rest|))
    {
      ZeroTo(64);
      assert buf[..] == buf[..64];
      Compress();
      curlen := 0;
    }

    method PutLength()
      requires Ready() && length < WRAP
      modifies buf
      ensures buf[..60] == old(buf[..60]) && buf[60..] == BigEndian(length, 4)
    {
      buf[63] := length % 256;
      buf[62] := length / 256 % 256;
      buf[61] := length / 65536 % 256;
      buf[60] := length / 16777216 % 256;
      FourBytes(length);
    }

    /** The last block: zeros, the length, and a compression. */
    method Last(ghost start: seq<nat>)
      requires Ready() && curlen <= 56 && buf[..curlen] == start && length < WRAP
      modifies this`state, this`curlen, buf
      ensures |start| <= 56
      ensures state == f(old(state), start + Zeros<nat>(0, 56 - |start|) + (Zeros<nat>(0, 4) + BigEndian(length, 4)))
    {
      ZeroTo(56);
      for i := 56 to 60
        modifies buf
        invariant buf[..i] == start + Zeros<nat>(0, 56 - |start|) + Zeros<nat>(0, i - 56)
      {
        ghost var before := buf[..i];
        buf[i] := 0;
        assert buf[..i + 1] == before + [0];
      }
      ghost var head := buf[..60];
      PutLength();
      assert buf[..] == head + BigEndian(length, 4);
      assert head + BigEndian(length, 4) ==
        start + Zeros<nat>(0, 56 - |start|) + (Zeros<nat>(0, 4) + BigEndian(length, 4));
      Compress();
    }

    /** Padding and the last one or two blocks, with the low 32 bits of the length in bits. */
    method Finish()
      requires Valid()
      modifies this`state, this`curlen, this`length, buf
      ensures IsHash(f, iv, fed, Field(|fed|), 64, state)
    {
      ghost var rest := buf[..curlen];
      BitLength(fed, blocks, rest, length);
      length := (length + 8 * curlen) % WRAP;
      buf[curlen] := 0x80;
      curlen := curlen + 1;
      assert buf[..curlen] == rest + [0x80];
      if curlen > 56 {
        DoneTwo(rest);
      } else {
        Last(rest + [0x80]);
        OneBlock(f, iv, fed, Field(|fed|), 64, blocks, rest, state);
      }
    }

    method DoneTwo(ghost rest: seq<nat>)
      requires Ready() && 56 < curlen <= 64 && buf[..curlen] == rest + [0x80] && length == 8 * |fed| % WRAP
      requires Cut(fed, 64, blocks, rest) && state == Fold(f, iv, blocks)
      modifies this`state, this`curlen, this`length, buf
      ensures IsHash(f, iv, fed, Field(|fed|), 64, state)
    {
      Spill(rest);
      ghost var middle := state;
      assert buf[..0] == [];
      Last([]);
      assert [] + Zeros<nat>(0, 56) == Zeros<nat>(0, 56);
      TwoBlocks(f, iv, fed, Field(|fed|), 64, blocks, rest, middle, state);
    }

    /** SM3_done: the digest of what was fed. */
    method Done() returns (digest: seq<nat>)
      requires Valid()
      modifies this`state, this`curlen, this`length, buf
      ensures IsDigestOf(o, iv, fed, Field(|fed|), digest)
    {
      Finish();
      digest := Output(o, state);
      assert Tied(o);
      DigestFound(o, f, iv, fed, Field(|fed|), state, digest);
    }
  }

  /** The eight words written out big-endian. */
  ghost predicate IsOutput<W>(o: Ops<W>, r: Regs<W>, digest: seq<nat>) {
    |digest| == 32 && forall i: nat :: i < 8 ==> WordAt(digest, i, BigEndian(o.store(RegWords(r)[i]), WORD))
  }

  /** The words as they lie in little-endian memory. */
  function Laid<W>(o: Ops<W>, w: seq<W>): (bs: seq<seq<nat>>)
    ensures |bs| == |w| && forall i :: 0 <= i < |w| ==> bs[i] == LittleEndian(o.store(w[i]), WORD) && |bs[i]| == WORD
  {
    seq(|w|, i requires 0 <= i < |w| => LittleEndian(o.store(w[i]), WORD))
  }

  /** memcpy from little-endian memory, and the bytes of each word turned round. */
  method Output<W(!new)>(o: Ops<W>, r: Regs<W>) returns (digest: seq<nat>)
    ensures IsOutput(o, r, digest)
  {
    var w := RegWords(r);
    digest := TurnedOut(Laid(o, w));
    forall i: nat | i < 8 ensures WordAt(digest, i, BigEndian(o.store(w[i]), WORD)) {
      ReversedTwice(BigEndian(o.store(w[i]), WORD));
    }
  }

  method TurnedOut(bs: seq<seq<nat>>) returns (digest: seq<nat>)
    requires forall i :: 0 <= i < |bs| ==> |bs[i]| == WORD
    ensures |digest| == 4 * |bs| && forall i: nat :: i < |bs| ==> WordAt(digest, i, Reversed(bs[i]))
  {
    var hash := CopyOut(bs);
    ghost var b := hash[..];
    TurnBytes(hash, |bs|);
    digest := hash[..];
    forall i: nat | i < |bs| ensures WordAt(digest, i, Reversed(bs[i])) {
      assert WordAt(b, i, bs[i]) && WordAt(digest, i, Reversed(Word(b, i)));
    }
  }

  method CopyOut(bs: seq<seq<nat>>) returns (hash: array<nat>)
    requires forall i :: 0 <= i < |bs| ==> |bs[i]| == WORD
    ensures fresh(hash) && hash.Length == 4 * |bs| && forall i: nat :: i < |bs| ==> WordAt(hash[..], i, bs[i])
  {
    hash := new nat[4 * |bs|];
    var i := 0;
    while i < |bs|
      invariant 0 <= i <= |bs| && forall k: nat :: k < i ==> WordAt(hash[..], k, bs[k])
    {
      PutWord(hash, i, bs[i]);
      i := i + 1;
    }
  }

  ghost predicate IsDigestAt<W>(o: Ops<W>, iv: Regs<W>, m: seq<nat>, field: seq<nat>, digest: seq<nat>, h: Regs<W>) {
    IsHash(Compressor(o), iv, m, field, 64, h) && IsOutput(o, h, digest)
  }

  /** The digest of a message by section 5 of GM/T 0004-2012, given the length field. */
  ghost predicate IsDigestOf<W(!new)>(o: Ops<W>, iv: Regs<W>, m: seq<nat>, field: seq<nat>, digest: seq<nat>) {
    exists h: Regs<W> :: IsDigestAt(o, iv, m, field, digest, h)
  }

  lemma DigestFound<W(!new)>(o: Ops<W>, f: (Regs<W>, seq<nat>) -> Regs<W>, iv: Regs<W>, m: seq<nat>, field: seq<nat>,
                             h: Regs<W>, digest: seq<nat>)
    requires f == Compressor(o) && IsHash(f, iv, m, field, 64, h) && IsOutput(o, h, digest)
    ensures IsDigestOf(o, iv, m, field, digest)
  {
    assert IsDigestAt(o, iv, m, field, digest, h);
  }

  /** SM3_256. Main result: the digest is that of the standard for every message of fewer than 2^32 bits. */
  method Hash(message: seq<nat>) returns (digest: seq<nat>)
    ensures IsDigestOf(Program(), InitialRegs(), message, Field(|message|), digest)
    ensures 8 * |message| < WRAP ==>
      IsDigestOf(Program(), InitialRegs(), message, BigEndian(8 * |message|, LENGTH), digest)
  {
    ProgramTurns(HALF_BITS);
    var s := new Sm3State(Program(), InitialRegs());
    s.Process(message);
    assert [] + message == message;
    digest := s.Done();
    if 8 * |message| < WRAP { FieldIsStandard(|message|, LENGTH); }
  }

  /** A message has one digest. */
  lemma OneDigest<W(!new)>(o: Ops<W>, iv: Regs<W>, m: seq<nat>, field: seq<nat>, d: seq<nat>, d': seq<nat>)
    requires IsDigestOf(o, iv, m, field, d) && IsDigestOf(o, iv, m, field, d')
    ensures d == d'
  {
    var h: Regs<W> :| IsDigestAt(o, iv, m, field, d, h);
    var h': Regs<W> :| IsDigestAt(o, iv, m, field, d', h');
    OneHash(Compressor(o), iv, m, field, 64, h, h');
    forall k: nat | k < 32 ensures d[k] == d'[k] {
      var i, j := k / 4, k % 4;
      var b := BigEndian(o.store(RegWords(h)[i]), WORD);
      assert WordAt(d, i, b) && WordAt(d', i, b);
      assert d[k] == b[j] && d'[k] == b[j];
    }
  }

  /** Four-byte words end to end. */
  ghost function Strung(bs: seq<seq<nat>>): (d: seq<nat>)
    requires forall i :: 0 <= i < |bs| ==> |bs[i]| == WORD
    ensures |d| == 4 * |bs|
  {
    seq(4 * |bs|, k requires 0 <= k < 4 * |bs| => bs[k / 4][k % 4])
  }

  lemma StrungWord(bs: seq<seq<nat>>, i: nat)
    requires (forall i :: 0 <= i < |bs| ==> |bs[i]| == WORD) && i < |bs|
    ensures WordAt(Strung(bs), i, bs[i])
  {
    var d := Strung(bs);
    forall j | 0 <= j < 4 ensures d[4 * i + j] == bs[i][j] { DivModUnique(4 * i + j, 4, i, j); }
    assert d[4 * i..4 * i + 4] == bs[i];
  }

  ghost function BigWords<W>(o: Ops<W>, w: seq<W>): (bs: seq<seq<nat>>)
    ensures |bs| == |w| && forall i :: 0 <= i < |w| ==> bs[i] == BigEndian(o.store(w[i]), WORD) && |bs[i]| == WORD
  {
    seq(|w|, i requires 0 <= i < |w| => BigEndian(o.store(w[i]), WORD))
  }

  /** A message has a digest. */
  lemma DigestExists<W(!new)>(o: Ops<W>, iv: Regs<W>, m: seq<nat>, field: seq<nat>) returns (d: seq<nat>)
    requires |field| <= 64
    ensures IsDigestOf(o, iv, m, field, d)
  {
    var h := HashExists(Compressor(o), iv, m, field, 64);
    var bs := BigWords(o, RegWords(h));
    d := Strung(bs);
    forall i: nat | i < 8 ensures WordAt(d, i, BigEndian(o.store(RegWords(h)[i]), WORD)) { StrungWord(bs, i); }
    assert IsDigestAt(o, iv, m, field, d, h);
  }

  lemma FourBytes(x: nat)
    requires x < WRAP
    ensures BigEndian(x, 4) == [x / 16777216 % 256, x / 65536 % 256, x / 256 % 256, x % 256]
  {
    assert x / 256 / 256 == x / 65536 && x / 65536 / 256 == x / 16777216;
    assert BigEndian(x / 16777216, 1) == [x / 16777216 % 256];
    assert BigEndian(x / 65536, 2) == [x / 16777216 % 256, x / 65536 % 256];
    assert BigEndian(x / 256, 3) == [x / 16777216 % 256, x / 65536 % 256, x / 256 % 256];
  }

  /** The length kept block by block is the length in bits, to 32 bits. */
  lemma BitLength(m: seq<nat>, blocks: seq<seq<nat>>, rest: seq<nat>, length: nat)
    requires Cut(m, 64, blocks, rest) && length == 512 * |blocks| % WRAP
    ensures (length + 8 * |rest|) % WRAP == 8 * |m| % WRAP
  {
    FlatSize(blocks, 64);
    var x := 512 * |blocks|;
    assert 8 * |m| == x + 8 * |rest|;
    assert x == x / WRAP * WRAP + length;
  }

  /** Numbers that agree in all the bytes that hold them are equal. */
  lemma WideDiffers(r: nat, x: nat, n: nat)
    requires r < x < Pow(256, n)
    ensures BigEndian(r, n) != BigEndian(x, n)
  {
    if BigEndian(r, n) == BigEndian(x, n) {
      Powers(n);
      BigEndianTells(r, x, n, Pow(256, n));
    }
  }

  /** The low half of a number with zeros above it is the number exactly if the high half is zero. */
  lemma HalvesIff(x: nat, half: nat, w: nat)
    requires w == Pow(256, half) && w > 0 && x < Pow(256, half + half)
    ensures Zeros<nat>(0, half) + BigEndian(x % w, half) == BigEndian(x, half + half) <==> x < w
  {
    ZeroBytes(half);
    ShortNumber(x % w, half, half);
    if x >= w {
      WideDiffers(x % w, x, half + half);
    } else {
      DivModUnique(x, w, 0, x);
    }
  }

  lemma FourPower(half: nat)
    requires half == 4
    ensures Pow(256, half) == WRAP && Pow(256, half + half) == WRAP * WRAP
  {
    var one, two := half - 3, half - 2;
    assert Pow(256, one) == 256 * Pow(256, one - 1);
    PowAdd(256, one, one);
    PowAdd(256, two, two);
    PowAdd(256, half, half);
  }

  /** Main result: the program's length field is the 64-bit length of section 5.2 of GM/T 0004-2012 exactly for messages
      shorter than 2^32 bits. The standard covers messages below 2^64 bits. */
  lemma FieldIsStandard(n: nat, bytes: nat)
    requires bytes == 8 && 8 * n < WRAP * WRAP
    ensures Field(n) == BigEndian(8 * n, bytes) <==> 8 * n < WRAP
  {
    var half := bytes / 2;
    FourPower(half);
    HalvesIff(8 * n, half, WRAP);
  }

  /** A message of 2^29 bytes, the shortest whose length does not fit, is hashed with length zero. */
  lemma ShortestWrap(n: nat, bytes: nat)
    requires n == 0x2000_0000 && bytes == 8
    ensures Field(n) == Zeros<nat>(0, 4) + BigEndian(0, 4) && Field(n) != BigEndian(8 * n, bytes)
  {
    FieldIsStandard(n, bytes);
  }
}
