/** Symbol lookup through a GNU hash table: gnu_hash, gnu_lookup and gnu_lookup_filtered of musl/ldso/dynlink.c. */
module GnuHash {
  import opened Arith
  import opened BitOps
  import opened Collections

  const TWO32: nat := 0x1_0000_0000

  /** A C string without its null. */
  type Name = seq<nat>

  /** The hash of a name: 5381, then 33 h + c for each character, to 32 bits. */
  function Hash(s: Name): (h: nat)
    ensures h < TWO32
  {
    if |s| == 0 then 5381 else (33 * Hash(s[..|s| - 1]) + s[|s| - 1]) % TWO32
  }

  /** One turn of the loop: the accumulator holds wide times 2^32 values, and that does not matter. */
  lemma WideTurn(h: nat, c: nat, wide: nat)
    requires wide > 0
    ensures 0 <= (h + (h * 32 + c)) % (TWO32 * wide)
    ensures (h + (h * 32 + c)) % (TWO32 * wide) % TWO32 == (33 * (h % TWO32) + c) % TWO32
  {
    var x := 33 * h + c;
    DivMod(x, TWO32 * wide);
    WideRest(x, x / (TWO32 * wide), x % (TWO32 * wide), wide);
    DivMod(h, TWO32);
    ModShift(33 * (h % TWO32) + c, 33 * (h / TWO32));
  }

  lemma WideRest(x: nat, q: nat, r: nat, wide: nat)
    requires x == q * (TWO32 * wide) + r
    ensures r % TWO32 == x % TWO32
  {
    assert q * (TWO32 * wide) == (q * wide) * TWO32;
    ModShift(r, q * wide);
  }

  lemma ModShift(a: nat, k: nat)
    ensures (a + k * TWO32) % TWO32 == a % TWO32
  {
  }

  /** gnu_hash, whatever the width of uint_fast32_t: 32 bits for wide = 1, 64 bits for wide = 2^32. */
  method HashOf(s: Name, wide: nat) returns (r: nat)
    requires wide > 0
    ensures r == Hash(s)
  {
    var h := 5381;
    var k := 0;
    while k < |s|
      invariant 0 <= k <= |s| && 0 <= h && h % TWO32 == Hash(s[..k])
    {
      WideTurn(h, s[k], wide);
      assert s[..k + 1][..k] == s[..k];
      h := (h + (h * 32 + s[k])) % (TWO32 * wide);
      k := k + 1;
    }
    assert s[..k] == s;
    r := h % TWO32;
  }

  /** c_i 33^(n - 1 - i) over the characters of s from i on. */
  ghost function Terms(s: Name, i: nat): nat
    requires i <= |s|
    decreases |s| - i
  {
    if i == |s| then 0 else s[i] * Pow(33, |s| - 1 - i) + Terms(s, i + 1)
  }

  /** One more character multiplies all terms by 33. */
  lemma {:induction false} TermsNext(s: Name, c: nat, i: nat)
    requires i <= |s|
    ensures Terms(s + [c], i) == 33 * Terms(s, i) + c
    decreases |s| - i
  {
    var t := s + [c];
    if i == |s| {
      assert t[i] == c && Pow(33, 0) == 1;
      assert Terms(t, i) == c * Pow(33, |t| - 1 - i) + Terms(t, i + 1);
    } else {
      TermsNext(s, c, i + 1);
      var n := |s| - 1 - i;
      assert t[i] == s[i] && Pow(33, n + 1) == 33 * Pow(33, n);
      assert Terms(t, i) == s[i] * Pow(33, n + 1) + Terms(t, i + 1);
      assert s[i] * (33 * Pow(33, n)) == 33 * (s[i] * Pow(33, n));
    }
  }

  /** Main result: the hash is 5381 33^n plus the sum of c_i 33^(n - 1 - i), to 32 bits. */
  lemma {:induction false} HashClosed(s: Name)
    ensures Hash(s) == (5381 * Pow(33, |s|) + Terms(s, 0)) % TWO32
  {
    if |s| == 0 {
      assert Pow(33, 0) == 1;
    } else {
      var n, t, c := |s| - 1, s[..|s| - 1], s[|s| - 1];
      HashClosed(t);
      assert s == t + [c];
      TermsNext(t, c, 0);
      var x := 5381 * Pow(33, n) + Terms(t, 0);
      assert Pow(33, n + 1) == 33 * Pow(33, n);
      DivMod(x, TWO32);
      ModShift(33 * (x % TWO32) + c, 33 * (x / TWO32));
    }
  }

  // ----- the table, as 32-bit words -----

  /** What a lookup sees of an object: its hash table words, the names of its symbols and their versions. */
  datatype Dso = Dso(words: seq<nat>, names: seq<Name>, versions: Option<seq<int>>)

  /** The number of buckets, the first hashed symbol, the number of Bloom words and the Bloom shift. */
  function Buckets(d: Dso): nat
    requires |d.words| >= 4
  {
    d.words[0]
  }

  function Offset(d: Dso): nat
    requires |d.words| >= 4
  {
    d.words[1]
  }

  function Blooms(d: Dso): nat
    requires |d.words| >= 4
  {
    d.words[2]
  }

  function Shift(d: Dso): nat
    requires |d.words| >= 4
  {
    d.words[3]
  }

  /** Header, two words for each 64-bit Bloom word, buckets, and a word for each symbol from the offset on. */
  ghost predicate Sized(d: Dso) {
    && |d.words| >= 4 && Buckets(d) > 0 && (exists k: nat :: Blooms(d) == Pow(2, k)) && Blooms(d) > 0
      && 0 < Offset(d) <= |d.names|
    && |d.words| == 4 + 2 * Blooms(d) + Buckets(d) + (|d.names| - Offset(d))
    && (d.versions.Some? ==> |d.versions.value| == |d.names|)
  }

  ghost function BucketWord(d: Dso, b: nat): nat
    requires Sized(d) && b < Buckets(d)
  {
    d.words[4 + 2 * Blooms(d) + b]
  }

  ghost function ChainWord(d: Dso, i: nat): nat
    requires Sized(d) && Offset(d) <= i < |d.names|
  {
    d.words[4 + 2 * Blooms(d) + Buckets(d) + (i - Offset(d))]
  }

  /** A Bloom word in memory order, low half first. */
  function BloomWord(d: Dso, j: nat): nat
    requires 4 + 2 * j + 1 < |d.words|
  {
    d.words[4 + 2 * j] + TWO32 * d.words[4 + 2 * j + 1]
  }

  function BucketOf(d: Dso, h: nat): (b: nat)
    requires |d.words| >= 4 && Buckets(d) > 0
    ensures b < Buckets(d)
  {
    h % Buckets(d)
  }

  /** The Bloom word of a hash. */
  function BloomOf(d: Dso, h: nat): (j: nat)
    requires |d.words| >= 4 && Blooms(d) > 0
    ensures j < Blooms(d)
  {
    h / 64 % Blooms(d)
  }

  /** The two bits of a hash are set in its Bloom word. */
  predicate PassesFilter(d: Dso, h: nat)
    requires |d.words| >= 4 && Blooms(d) > 0 && |d.words| >= 4 + 2 * Blooms(d)
  {
    var f := BloomWord(d, BloomOf(d, h));
    Bit(f, h % 64) && Bit(f, Shr(h, Shift(d)) % 64)
  }

  /** Half 0 or 1 of a Bloom word. */
  function BloomHalf(d: Dso, j: nat, k: nat): nat
    requires k < 64 && 4 + 2 * j + 1 < |d.words|
  {
    d.words[4 + 2 * j + k / 32]
  }

  /** The filter on the 32-bit words in memory: bits h mod 64 and (h >> shift) mod 64, counted from the low half on, of
      Bloom word h / 64 modulo their number. */
  lemma FilterBits(d: Dso, h: nat)
    requires |d.words| >= 4 && Blooms(d) > 0 && |d.words| >= 4 + 2 * Blooms(d)
    requires forall i :: 0 <= i < |d.words| ==> d.words[i] < TWO32
    ensures Pow(2, Shift(d)) > 0
    ensures var j, k, l := h / 64 % Blooms(d), h % 64, h / Pow(2, Shift(d)) % 64;
      PassesFilter(d, h) <==> Bit(BloomHalf(d, j, k), k % 32) && Bit(BloomHalf(d, j, l), l % 32)
  {
    var j := h / 64 % Blooms(d);
    ShrDivides(h, Shift(d));
    WordPower(8);
    HalfBit(d, j, h % 64, 32);
    HalfBit(d, j, h / Pow(2, Shift(d)) % 64, 32);
  }

  lemma WordPower(n: nat)
    requires n == 8
    ensures Pow(2, 4 * n) == TWO32
  {
    PowAdd(2, n, n);
    PowAdd(2, 2 * n, 2 * n);
    assert Pow(2, 8) == 256;
  }

  lemma HalfBit(d: Dso, j: nat, k: nat, n: nat)
    requires k < 64 && 4 + 2 * j + 1 < |d.words| && d.words[4 + 2 * j] < TWO32 == Pow(2, n) && n == 32
    ensures Bit(BloomWord(d, j), k) <==> Bit(BloomHalf(d, j, k), k % 32)
  {
    JoinBit(d.words[4 + 2 * j], d.words[4 + 2 * j + 1], n, k);
  }

  ghost predicate InBucket(d: Dso, i: nat, b: nat) {
    Sized(d) && Offset(d) <= i < |d.names| && BucketOf(d, Hash(d.names[i])) == b
  }

  /** Symbol i is hashed: its chain word carries its hash but for the lowest bit, which marks the last of a bucket,
      and its bits are set in its Bloom word. */
  ghost predicate Hashed(d: Dso, i: nat) {
    Sized(d) && Offset(d) <= i < |d.names| ==>
      var h := Hash(d.names[i]);
      && Or(ChainWord(d, i), 1) == Or(h, 1)
      && (ChainWord(d, i) % 2 == 1 <==> !InBucket(d, i + 1, BucketOf(d, h)))
      && PassesFilter(d, h)
  }

  /** A bucket names its first symbol, or zero when it has none, and its symbols stand together. */
  ghost predicate Bucketed(d: Dso, b: nat) {
    Sized(d) && b < Buckets(d) ==>
      var first := BucketWord(d, b);
      && (first == 0 ==> forall i: nat :: !InBucket(d, i, b))
      && (first != 0 ==> InBucket(d, first, b))
      && (forall i: nat, j: nat :: InBucket(d, i, b) && first <= j <= i ==> InBucket(d, j, b))
      && (forall i: nat :: InBucket(d, i, b) ==> first <= i)
  }

  ghost predicate WellFormed(d: Dso) {
    Sized(d) && (forall i: nat :: Hashed(d, i)) && (forall b: nat :: Bucketed(d, b))
  }

  // ----- the linear scan -----

  /** Symbol i is a visible definition of the name. */
  predicate Matches(d: Dso, s: Name, i: nat)
    requires i < |d.names| && (d.versions.Some? ==> |d.versions.value| == |d.names|)
  {
    d.names[i] == s && (d.versions.Some? ==> d.versions.value[i] >= 0)
  }

  /** The first match from i on; 0 when there is none. */
  ghost function Scan(d: Dso, s: Name, i: nat): nat
    requires i <= |d.names| && (d.versions.Some? ==> |d.versions.value| == |d.names|)
    decreases |d.names| - i
  {
    if i == |d.names| then 0 else if Matches(d, s, i) then i else Scan(d, s, i + 1)
  }

  lemma {:induction false} ScanSkips(d: Dso, s: Name, i: nat, j: nat)
    requires i <= j <= |d.names| && (d.versions.Some? ==> |d.versions.value| == |d.names|)
    requires forall k :: i <= k < j ==> !Matches(d, s, k)
    ensures Scan(d, s, i) == Scan(d, s, j)
    decreases j - i
  {
    if i < j { ScanSkips(d, s, i + 1, j); }
  }

  lemma {:induction false} ScanMeans(d: Dso, s: Name, i: nat)
    requires 0 < i <= |d.names| && (d.versions.Some? ==> |d.versions.value| == |d.names|)
    ensures Scan(d, s, i) != 0 ==> i <= Scan(d, s, i) < |d.names| && Matches(d, s, Scan(d, s, i))
    ensures forall k :: i <= k < |d.names| && (Scan(d, s, i) == 0 || k < Scan(d, s, i)) ==> !Matches(d, s, k)
    decreases |d.names| - i
  {
    if i < |d.names| && !Matches(d, s, i) { ScanMeans(d, s, i + 1); }
  }

  /** When no hashed symbol matches the scan finds none. */
  lemma NoneFound(d: Dso, s: Name)
    requires Sized(d) && forall i :: Offset(d) <= i < |d.names| ==> !Matches(d, s, i)
    ensures Scan(d, s, Offset(d)) == 0
  {
    ScanSkips(d, s, Offset(d), |d.names|);
  }

  /** Nothing outside the bucket of a name can match it. */
  lemma OutsideNoMatch(d: Dso, s: Name, i: nat)
    requires Sized(d) && Offset(d) <= i < |d.names| && !InBucket(d, i, BucketOf(d, Hash(s)))
    ensures !Matches(d, s, i)
  {
  }

  /** An empty bucket. */
  lemma EmptyBucket(d: Dso, s: Name)
    requires WellFormed(d) && BucketWord(d, BucketOf(d, Hash(s))) == 0
    ensures Scan(d, s, Offset(d)) == 0
  {
    assert Bucketed(d, BucketOf(d, Hash(s)));
    forall i | Offset(d) <= i < |d.names| ensures !Matches(d, s, i) {
      OutsideNoMatch(d, s, i);
    }
    NoneFound(d, s);
  }

  /** A match in the bucket, the first one there, is the first of all. */
  lemma FoundHere(d: Dso, s: Name, i: nat)
    requires WellFormed(d) && InBucket(d, i, BucketOf(d, Hash(s))) && Matches(d, s, i)
    requires forall k :: BucketWord(d, BucketOf(d, Hash(s))) <= k < i ==> !Matches(d, s, k)
    ensures Scan(d, s, Offset(d)) == i
  {
    var b := BucketOf(d, Hash(s));
    assert Bucketed(d, b);
    forall k | Offset(d) <= k < i ensures !Matches(d, s, k) {
      if k < BucketWord(d, b) { OutsideNoMatch(d, s, k); }
    }
    ScanSkips(d, s, Offset(d), i);
  }

  /** At the end mark the whole bucket has been seen. */
  lemma BucketDone(d: Dso, s: Name, i: nat)
    requires WellFormed(d) && InBucket(d, i, BucketOf(d, Hash(s))) && ChainWord(d, i) % 2 == 1
    requires forall k :: BucketWord(d, BucketOf(d, Hash(s))) <= k <= i ==> !Matches(d, s, k)
    ensures Scan(d, s, Offset(d)) == 0
  {
    var b := BucketOf(d, Hash(s));
    assert Bucketed(d, b) && Hashed(d, i);
    assert !InBucket(d, i + 1, b);
    forall k | Offset(d) <= k < |d.names| ensures !Matches(d, s, k) {
      if k < BucketWord(d, b) || i < k { OutsideNoMatch(d, s, k); }
    }
    NoneFound(d, s);
  }

  /** Without the end mark the next symbol belongs to the bucket too. */
  lemma NextInBucket(d: Dso, i: nat, b: nat)
    requires WellFormed(d) && InBucket(d, i, b) && ChainWord(d, i) % 2 != 1
    ensures InBucket(d, i + 1, b)
  {
    assert Hashed(d, i);
  }

  /** Comparing hashes first loses no match. */
  lemma HashAgrees(d: Dso, i: nat)
    requires WellFormed(d) && Offset(d) <= i < |d.names|
    ensures Or(ChainWord(d, i), 1) == Or(Hash(d.names[i]), 1)
  {
    assert Hashed(d, i);
  }

  // ----- the lookup -----

  /** The chain walk: the same answer as the scan of all hashed symbols. */
  method Lookup(h1: nat, d: Dso, s: Name) returns (r: nat)
    requires WellFormed(d) && h1 == Hash(s)
    ensures r == Scan(d, s, Offset(d))
  {
    var buckets := 4 + 2 * Blooms(d);
    ghost var b := BucketOf(d, h1);
    assert Bucketed(d, b);
    var i := d.words[buckets + h1 % Buckets(d)];
    ghost var first := i;
    if i == 0 {
      EmptyBucket(d, s);
      return 0;
    }
    var hashval := buckets + Buckets(d) + (i - Offset(d));
    while true
      invariant InBucket(d, i, b) && first <= i && hashval == buckets + Buckets(d) + (i - Offset(d))
      invariant forall k :: first <= k < i ==> !Matches(d, s, k)
      decreases |d.names| - i
    {
      var h2 := d.words[hashval];
      assert h2 == ChainWord(d, i);
      HashAgrees(d, i);
      hashval := hashval + 1;
      if Or(h1, 1) == Or(h2, 1) && (d.versions.None? || d.versions.value[i] >= 0) && s == d.names[i] {
        FoundHere(d, s, i);
        return i;
      }
      LowBit(h2);
      if And(h2, 1) != 0 {
        BucketDone(d, s, i);
        return 0;
      }
      NextInBucket(d, i, b);
      i := i + 1;
    }
  }

  /** A name whose bits are not in the Bloom word is no hashed symbol. */
  lemma FilteredOut(d: Dso, s: Name)
    requires WellFormed(d) && !PassesFilter(d, Hash(s))
    ensures Scan(d, s, Offset(d)) == 0
  {
    forall i | Offset(d) <= i < |d.names| ensures !Matches(d, s, i) {
      assert Hashed(d, i);
    }
    NoneFound(d, s);
  }

  /** The word that the mask picks. */
  lemma MaskedWord(d: Dso, h: nat)
    requires Sized(d)
    ensures And(h / 64, Blooms(d) - 1) == BloomOf(d, h)
  {
    var k: nat :| Blooms(d) == Pow(2, k);
    MaskPower(h / 64, k);
  }

  /** The Bloom filter in front changes no answer. */
  method LookupFiltered(h1: nat, d: Dso, s: Name, fofs: nat, fmask: nat) returns (r: nat)
    requires WellFormed(d) && h1 == Hash(s) && fofs == h1 / 64 && fmask == Pow(2, h1 % 64)
    ensures r == Scan(d, s, Offset(d))
  {
    MaskedWord(d, h1);
    var f := BloomWord(d, And(fofs, Blooms(d) - 1));
    MaskBit(f, h1 % 64);
    if And(f, fmask) == 0 {
      FilteredOut(d, s);
      return 0;
    }
    ShiftedBit(f, Shr(h1, Shift(d)) % 64);
    f := Shr(f, Shr(h1, Shift(d)) % 64);
    if And(f, 1) == 0 {
      FilteredOut(d, s);
      return 0;
    }
    r := Lookup(h1, d, s);
  }

  /** What a symbol search asks of one object: the first hashed symbol that matches the name, or zero. */
  method Find(d: Dso, s: Name, wide: nat) returns (r: nat)
    requires WellFormed(d) && wide > 0
    ensures r != 0 ==> Offset(d) <= r < |d.names| && Matches(d, s, r)
    ensures forall k :: Offset(d) <= k < |d.names| && (r == 0 || k < r) ==> !Matches(d, s, k)
  {
    var gh := HashOf(s, wide);
    r := LookupFiltered(gh, d, s, gh / 64, Pow(2, gh % 64));
    ScanMeans(d, s, Offset(d));
  }
}
