/** The 64-bit words of SHA-512: demo/crypt/crypt.c against section 4.1.3 of FIPS 180-4. */
module Sha512Words {
  import opened Arith
  import opened Bytes
  import opened Collections
  import opened HashStream
  import opened Sha512Block

  function BigSigma0(x: bv64): bv64 { ((x >> 28) | (x << 36)) ^ ((x >> 34) | (x << 30)) ^ ((x >> 39) | (x << 25)) }
  function BigSigma1(x: bv64): bv64 { ((x >> 14) | (x << 50)) ^ ((x >> 18) | (x << 46)) ^ ((x >> 41) | (x << 23)) }
  function SmallSigma0(x: bv64): bv64 { ((x >> 1) | (x << 63)) ^ ((x >> 8) | (x << 56)) ^ (x >> 7) }
  function SmallSigma1(x: bv64): bv64 { ((x >> 19) | (x << 45)) ^ ((x >> 61) | (x << 3)) ^ (x >> 6) }

  /** Ch and Maj as the program writes them, with fewer operations, and as the standard does. */
  function Ch(x: bv64, y: bv64, z: bv64): bv64 { z ^ (x & (z ^ y)) }
  function Maj(x: bv64, y: bv64, z: bv64): bv64 { (x & y) ^ (z & (x ^ y)) }
  function StandardCh(x: bv64, y: bv64, z: bv64): bv64 { (x & y) ^ (!x & z) }
  function StandardMaj(x: bv64, y: bv64, z: bv64): bv64 { (x & y) ^ (x & z) ^ (y & z) }

  lemma ChBits(x: bv64, y: bv64, z: bv64)
    ensures z ^ (x & (z ^ y)) == (x & y) ^ (!x & z)
  {
  }

  lemma ChForm(x: bv64, y: bv64, z: bv64)
    ensures Ch(x, y, z) == StandardCh(x, y, z)
  {
    ChBits(x, y, z);
  }

  lemma MajBits(x: bv64, y: bv64, z: bv64)
    ensures (x & y) ^ (z & (x ^ y)) == (x & y) ^ (x & z) ^ (y & z)
  {
  }

  lemma MajForm(x: bv64, y: bv64, z: bv64)
    ensures Maj(x, y, z) == StandardMaj(x, y, z)
  {
    MajBits(x, y, z);
  }

  const TWO64: nat := 0x1_0000_0000_0000_0000

  /** Words are integers modulo 2^64; the functions on bits go through bit vectors. */
  function Bits(x: int): bv64 { (x % TWO64) as bv64 }
  function Value(x: bv64): int { x as int }

  /** Bytes in a word. */
  const WIDE: nat := 8

  /** bswap64: the bytes of a word in the other order. */
  function Swap64(x: int): (y: int)
    ensures y >= 0
  {
    FromBytes(LittleEndian(x % TWO64, WIDE))
  }

  function Sum(): (int, int) -> int { (x: int, y: int) => (x + y) % TWO64 }
  function OnBits(f: bv64 -> bv64): int -> int { (x: int) => Value(f(Bits(x))) }
  function OnThree(f: (bv64, bv64, bv64) -> bv64): (int, int, int) -> int {
    (x: int, y: int, z: int) => Value(f(Bits(x), Bits(y), Bits(z)))
  }

  function Program(): Ops<int> {
    Ops(Sum(), OnBits(SmallSigma0), OnBits(SmallSigma1), OnBits(BigSigma0), OnBits(BigSigma1),
        OnThree(Ch), OnThree(Maj), Swap64)
  }

  function Standard(): Ops<int> {
    Ops(Sum(), OnBits(SmallSigma0), OnBits(SmallSigma1), OnBits(BigSigma0), OnBits(BigSigma1),
        OnThree(StandardCh), OnThree(StandardMaj), Swap64)
  }

  lemma SumGroups(x: int, y: int, z: int)
    ensures ((x + y) % TWO64 + z) % TWO64 == (x + (y + z) % TWO64) % TWO64
  {
    var a, b := (x + y) / TWO64, (y + z) / TWO64;
    assert (x + y) % TWO64 + z == (x + y + z) - a * TWO64;
    assert x + (y + z) % TWO64 == (x + y + z) - b * TWO64;
    DropMultiple(x + y + z, a);
    DropMultiple(x + y + z, b);
  }

  lemma DropMultiple(n: int, k: int)
    ensures (n - k * TWO64) % TWO64 == n % TWO64
  {
    DivModUnique(n - k * TWO64, TWO64, n / TWO64 - k, n % TWO64);
  }

  lemma ProgramAdds()
    ensures AddOk(Program().add)
  {
    var add := Program().add;
    forall x: int, y: int, z: int ensures add(add(x, y), z) == add(x, add(y, z)) { SumGroups(x, y, z); }
    assert Laws(add, 2);
  }

  lemma ProgramAgrees()
    ensures Agree(Program(), Standard())
  {
    var p, s := Program(), Standard();
    forall x: int, y: int, z: int ensures p.ch(x, y, z) == s.ch(x, y, z) { ChForm(Bits(x), Bits(y), Bits(z)); }
    forall x: int, y: int, z: int ensures p.maj(x, y, z) == s.maj(x, y, z) { MajForm(Bits(x), Bits(y), Bits(z)); }
  }

  /** Main result: the program's ring, its order of additions and its Ch and Maj compute the standard's compression. */
  lemma ProgramIsStandard(ks: seq<int>, r: Regs<int>, m: seq<int>)
    requires |ks| == WORDS && |m| == 16
    ensures AddOk(Program().add) && Compressed(Program(), ks, r, m) == Compressed(Standard(), ks, r, m)
  {
    ProgramAdds();
    ProgramAgrees();
    CompressedAgree(Program(), Standard(), ks, r, m);
  }

  lemma EightPower(n: nat)
    requires n == 8
    ensures Pow(256, n) == TWO64
  {
    var one, two, four := n - 7, n - 6, n - 4;
    assert Pow(256, one) == 256 * Pow(256, one - 1);
    PowAdd(256, one, one);
    PowAdd(256, two, two);
    PowAdd(256, four, four);
  }

  lemma WordBound(b: seq<nat>)
    requires |b| == WIDE && Octets(b)
    ensures FromBytes(b) % TWO64 == FromBytes(b) < TWO64
  {
    BytesBound(b);
    EightPower(WIDE);
    DivModUnique(FromBytes(b), TWO64, 0, FromBytes(b));
  }

  /** Swapping a word read from little-endian memory gives its big-endian value. */
  lemma SwapLoads(b: seq<nat>)
    requires |b| == WIDE && Octets(b)
    ensures Swap64(FromLittle(b)) == FromBytes(b)
  {
    WordBound(Reversed(b));
    NumberRoundTrip(Reversed(b));
    ReversedTwice(b);
  }

  /** Storing a swapped word to little-endian memory writes it big-endian. */
  lemma SwapStores(x: int)
    ensures Swap64(x) < TWO64 && LittleEndian(Swap64(x), WIDE) == BigEndian(x % TWO64, WIDE)
  {
    var b := LittleEndian(x % TWO64, WIDE);
    WordBound(b);
    NumberRoundTrip(b);
    ReversedTwice(BigEndian(x % TWO64, WIDE));
  }

  /** The words of a block as section 5.2.2 of FIPS 180-4 reads them. */
  function BlockWords(b: seq<nat>): (m: seq<int>)
    requires |b| == 128
    ensures |m| == 16 && forall i :: 0 <= i < 16 ==> m[i] == FromBytes(b[8 * i..8 * i + 8])
  {
    seq(16, i requires 0 <= i < 16 => FromBytes(b[8 * i..8 * i + 8]))
  }

  /** The words that a little-endian machine finds in the same memory. */
  function MemoryWords(b: seq<nat>): (m: seq<int>)
    requires |b| == 128
    ensures |m| == 16 && forall i :: 0 <= i < 16 ==> m[i] == FromLittle(b[8 * i..8 * i + 8])
  {
    seq(16, i requires 0 <= i < 16 => FromLittle(b[8 * i..8 * i + 8]))
  }

  /** The compression function of the standard, on bytes. */
  function Compressor(ks: seq<int>): (Regs<int>, seq<nat>) -> Regs<int> {
    (r: Regs<int>, b: seq<nat>) =>
      if |ks| == WORDS && |b| == 128 then Compressed(Standard(), ks, r, BlockWords(b)) else r
  }

  lemma LoadedWords(b: seq<nat>)
    requires |b| == 128 && Octets(b)
    ensures Loaded(Program(), MemoryWords(b)) == BlockWords(b)
  {
    forall i | 0 <= i < 16 ensures Program().load(MemoryWords(b)[i]) == BlockWords(b)[i] {
      SwapLoads(b[8 * i..8 * i + 8]);
    }
  }

  /** Main result: what the program makes of a block in memory is what the standard makes of its bytes. */
  lemma CompressesBytes(ks: seq<int>, r: Regs<int>, b: seq<nat>)
    requires |ks| == WORDS && |b| == 128 && Octets(b)
    ensures AddOk(Program().add)
    ensures Compressed(Program(), ks, r, Loaded(Program(), MemoryWords(b))) == Compressor(ks)(r, b)
  {
    LoadedWords(b);
    ProgramIsStandard(ks, r, BlockWords(b));
  }

  // ----- the constants of sections 4.2.3 and 5.3.5 of FIPS 180-4 -----

  function InitialRegs(): Regs<int> {
    Regs(0x6a09e667f3bcc908, 0xbb67ae8584caa73b, 0x3c6ef372fe94f82b, 0xa54ff53a5f1d36f1,
         0x510e527fade682d1, 0x9b05688c2b3e6c1f, 0x1f83d9abfb41bd6b, 0x5be0cd19137e2179)
  }

  function RoundConstants(): (ks: seq<int>)
    ensures |ks| == WORDS
  {
    [0x428a2f98d728ae22, 0x7137449123ef65cd, 0xb5c0fbcfec4d3b2f, 0xe9b5dba58189dbbc,
       0x3956c25bf348b538, 0x59f111f1b605d019, 0x923f82a4af194f9b, 0xab1c5ed5da6d8118]
    + [0xd807aa98a3030242, 0x12835b0145706fbe, 0x243185be4ee4b28c, 0x550c7dc3d5ffb4e2,
       0x72be5d74f27b896f, 0x80deb1fe3b1696b1, 0x9bdc06a725c71235, 0xc19bf174cf692694]
    + [0xe49b69c19ef14ad2, 0xefbe4786384f25e3, 0x0fc19dc68b8cd5b5, 0x240ca1cc77ac9c65,
       0x2de92c6f592b0275, 0x4a7484aa6ea6e483, 0x5cb0a9dcbd41fbd4, 0x76f988da831153b5]
    + [0x983e5152ee66dfab, 0xa831c66d2db43210, 0xb00327c898fb213f, 0xbf597fc7beef0ee4,
       0xc6e00bf33da88fc2, 0xd5a79147930aa725, 0x06ca6351e003826f, 0x142929670a0e6e70]
    + [0x27b70a8546d22ffc, 0x2e1b21385c26c926, 0x4d2c6dfc5ac42aed, 0x53380d139d95b3df,
       0x650a73548baf63de, 0x766a0abb3c77b2a8, 0x81c2c92e47edaee6, 0x92722c851482353b]
    + [0xa2bfe8a14cf10364, 0xa81a664bbc423001, 0xc24b8b70d0f89791, 0xc76c51a30654be30,
       0xd192e819d6ef5218, 0xd69906245565a910, 0xf40e35855771202a, 0x106aa07032bbd1b8]
    + [0x19a4c116b8d2d0c8, 0x1e376c085141ab53, 0x2748774cdf8eeb99, 0x34b0bcb5e19b48a8,
       0x391c0cb3c5c95a63, 0x4ed8aa4ae3418acb, 0x5b9cca4f7763e373, 0x682e6ff3d6b2b8a3]
    + [0x748f82ee5defb2fc, 0x78a5636f43172f60, 0x84c87814a1f0ab72, 0x8cc702081a6439ec,
       0x90befffa23631e28, 0xa4506cebde82bde9, 0xbef9a3f7b2c67915, 0xc67178f2e372532b]
    + [0xca273eceea26619c, 0xd186b8c721c0c207, 0xeada7dd6cde0eb1e, 0xf57d4f7fee6ed178,
       0x06f067aa72176fba, 0x0a637dc5a2c898a6, 0x113f9804bef90dae, 0x1b710b35131c471b]
    + [0x28db77f523047d84, 0x32caab7b40c72493, 0x3c9ebe0a15c9bebc, 0x431d67c49c100d4c,
       0x4cc5d4becb3e42b6, 0x597f299cfc657e2a, 0x5fcb6fab3ad6faec, 0x6c44198c4a475817]
  }
}
