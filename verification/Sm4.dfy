/** The SM4 block cipher: lib/gm/source/SM4.c, over the word and byte operations it is made of. */
module Sm4 {
  import opened Collections
  import opened Feistel

  const ROUNDS: nat := 32

  /** A word from four bytes, most significant first; byte k of a word; the rounds of the cipher and of the key
      schedule; the key schedule's constants. */
  datatype Core<!W, !B> = Core(
    word: (B, B, B, B) -> W, byte: (W, nat) -> B, cipher: Rounds<W>, schedule: Rounds<W>, fk: seq<W>, ck: seq<W>)

  ghost predicate PacksWord<W, B>(c: Core<W, B>, w: W) {
    c.word(c.byte(w, 0), c.byte(w, 1), c.byte(w, 2), c.byte(w, 3)) == w
  }

  ghost predicate PacksBytes<W, B>(m: Core<W, B>, a: B, b: B, c: B, d: B) {
    var w := m.word(a, b, c, d);
    m.byte(w, 0) == a && m.byte(w, 1) == b && m.byte(w, 2) == c && m.byte(w, 3) == d
  }

  /** Words and groups of four bytes are the same thing. */
  ghost predicate Packs<W(!new), B(!new)>(m: Core<W, B>) {
    (forall w: W :: PacksWord(m, w)) && forall a: B, b: B, c: B, d: B :: PacksBytes(m, a, b, c, d)
  }

  ghost predicate Ok<W(!new), B(!new)>(m: Core<W, B>) {
    |m.fk| == 4 && |m.ck| == ROUNDS && Packs(m) && Cancels(m.cipher) && Unordered(m.cipher)
  }

  // ----- the cipher as a function -----

  function Load<W, B>(m: Core<W, B>, b: seq<B>, j: nat): W
    requires 4 * j + 3 < |b|
  {
    m.word(b[4 * j], b[4 * j + 1], b[4 * j + 2], b[4 * j + 3])
  }

  function Words<W, B>(m: Core<W, B>, b: seq<B>): (w: seq<W>)
    requires |b| == 16
    ensures |w| == 4
  {
    [Load(m, b, 0), Load(m, b, 1), Load(m, b, 2), Load(m, b, 3)]
  }

  function Bytes<W, B>(m: Core<W, B>, w: W): (b: seq<B>)
    ensures |b| == 4
  {
    [m.byte(w, 0), m.byte(w, 1), m.byte(w, 2), m.byte(w, 3)]
  }

  /** Four words as bytes, the last first. */
  function Output<W, B>(m: Core<W, B>, w: seq<W>): (b: seq<B>)
    requires |w| == 4
    ensures |b| == 16
  {
    Bytes(m, w[3]) + Bytes(m, w[2]) + Bytes(m, w[1]) + Bytes(m, w[0])
  }

  /** Reading back what was written turns the words round. */
  lemma WordsOutput<W(!new), B(!new)>(m: Core<W, B>, w: seq<W>)
    requires Packs(m) && |w| == 4
    ensures Words(m, Output(m, w)) == [w[3], w[2], w[1], w[0]]
  {
    assert PacksWord(m, w[0]) && PacksWord(m, w[1]) && PacksWord(m, w[2]) && PacksWord(m, w[3]);
  }

  lemma OutputWords<W(!new), B(!new)>(m: Core<W, B>, b: seq<B>, w: seq<W>)
    requires Packs(m) && |b| == 16 && |w| == 4 && w == [Words(m, b)[3], Words(m, b)[2], Words(m, b)[1], Words(m, b)[0]]
    ensures Output(m, w) == b
  {
    assert PacksBytes(m, b[0], b[1], b[2], b[3]) && PacksBytes(m, b[4], b[5], b[6], b[7]);
    assert PacksBytes(m, b[8], b[9], b[10], b[11]) && PacksBytes(m, b[12], b[13], b[14], b[15]);
  }

  function Whitened<W, B>(m: Core<W, B>, key: seq<B>): (w: seq<W>)
    requires |key| == 16 && |m.fk| == 4
    ensures |w| == 4
  {
    var x := m.schedule.xor;
    [x(m.fk[0], Load(m, key, 0)), x(m.fk[1], Load(m, key, 1)), x(m.fk[2], Load(m, key, 2)), x(m.fk[3], Load(m, key, 3))]
  }

  function RoundKeys<W, B>(m: Core<W, B>, key: seq<B>): (rk: seq<W>)
    requires |key| == 16 && |m.fk| == 4 && |m.ck| == ROUNDS
    ensures |rk| == ROUNDS
  {
    States(m.schedule, m.ck, Whitened(m, key), ROUNDS)[4..]
  }

  /** The cipher with given round keys. */
  function Crypt<W, B>(m: Core<W, B>, rk: seq<W>, b: seq<B>): (c: seq<B>)
    requires |rk| == ROUNDS && |b| == 16
    ensures |c| == 16
  {
    Output(m, States(m.cipher, rk, Words(m, b), ROUNDS)[ROUNDS..])
  }

  function Encrypted<W, B>(m: Core<W, B>, key: seq<B>, b: seq<B>): (c: seq<B>)
    requires |key| == 16 && |b| == 16 && |m.fk| == 4 && |m.ck| == ROUNDS
    ensures |c| == 16
  {
    Crypt(m, RoundKeys(m, key), b)
  }

  function Decrypted<W, B>(m: Core<W, B>, key: seq<B>, b: seq<B>): (c: seq<B>)
    requires |key| == 16 && |b| == 16 && |m.fk| == 4 && |m.ck| == ROUNDS
    ensures |c| == 16
  {
    Crypt(m, Reversed(RoundKeys(m, key)), b)
  }

  /** Main result: reversed round keys undo the cipher. */
  lemma CryptBack<W(!new), B(!new)>(m: Core<W, B>, rk: seq<W>, b: seq<B>, n: nat)
    requires Ok(m) && |rk| == ROUNDS == n && |b| == 16
    ensures Crypt(m, Reversed(rk), Crypt(m, rk, b)) == b
  {
    var r, x := m.cipher, Words(m, b);
    var s := States(r, rk, x, n);
    WordsOutput(m, s[n..]);
    Feistel.RoundTrip(r, rk, x, [s[n + 3], s[n + 2], s[n + 1], s[n]], n);
    OutputWords(m, b, [x[3], x[2], x[1], x[0]]);
  }

  /** Main result: decryption undoes encryption. */
  lemma DecryptEncrypt<W(!new), B(!new)>(m: Core<W, B>, key: seq<B>, b: seq<B>)
    requires Ok(m) && |key| == 16 && |b| == 16
    ensures Decrypted(m, key, Encrypted(m, key, b)) == b
  {
    CryptBack(m, RoundKeys(m, key), b, ROUNDS);
  }

  /** Main result: encryption undoes decryption. */
  lemma EncryptDecrypt<W(!new), B(!new)>(m: Core<W, B>, key: seq<B>, b: seq<B>)
    requires Ok(m) && |key| == 16 && |b| == 16
    ensures Encrypted(m, key, Decrypted(m, key, b)) == b
  {
    var rk := RoundKeys(m, key);
    CryptBack(m, Reversed(rk), b, ROUNDS);
    assert Reversed(Reversed(rk)) == rk;
  }

  // ----- the cipher as the program runs it -----

  /** Entry n + 4 of an array that holds the states so far is the next state. */
  ghost predicate Filled<W>(r: Rounds<W>, rk: seq<W>, x: seq<W>, a: seq<W>, n: nat) {
    |x| == 4 && n <= |rk| && n + 4 <= |a| && a[..n + 4] == States(r, rk, x, n)
  }

  lemma FillNext<W>(r: Rounds<W>, rk: seq<W>, x: seq<W>, a: seq<W>, n: nat, w: W)
    requires Filled(r, rk, x, a, n) && n < |rk| && n + 4 < |a|
    requires w == r.xor(a[n], r.mix(a[n + 1], a[n + 2], a[n + 3], rk[n]))
    ensures Filled(r, rk, x, a[n + 4 := w], n + 1)
  {
    assert a[n + 4 := w][..n + 5] == a[..n + 4] + [w];
  }

  /** A word goes to place n + 4 of an array of states. */
  method Put<W>(r: Rounds<W>, ghost rk: seq<W>, ghost x: seq<W>, a: array<W>, n: nat, w: W)
    requires Filled(r, rk, x, a[..], n) && n < |rk| && n + 4 < a.Length
    requires w == r.xor(a[n], r.mix(a[n + 1], a[n + 2], a[n + 3], rk[n]))
    modifies a
    ensures Filled(r, rk, x, a[..], n + 1) && a[n + 4] == w && forall k :: 0 <= k < n + 4 ==> a[k] == old(a[k])
  {
    FillNext(r, rk, x, a[..], n, w);
    ghost var before := a[..];
    a[n + 4] := w;
    assert a[..] == before[n + 4 := w];
  }

  /** Four words at the start of an array. */
  method Begin<W>(a: array<W>, x: seq<W>)
    requires a.Length >= 4 && |x| == 4
    modifies a
    ensures a[..4] == x
  {
    a[0], a[1], a[2], a[3] := x[0], x[1], x[2], x[3];
  }

  method KeySchedule<W(0), B>(m: Core<W, B>, key: seq<B>, rk: array<W>)
    requires |key| == 16 && |m.fk| == 4 && |m.ck| == ROUNDS && rk.Length == ROUNDS
    modifies rk
    ensures rk[..] == RoundKeys(m, key)
  {
    var K := new W[36];
    Begin(K, Whitened(m, key));
    ghost var x := Whitened(m, key);
    var i := 0;
    while i < ROUNDS
      invariant 0 <= i <= ROUNDS && Filled(m.schedule, m.ck, x, K[..], i)
      invariant forall k :: 0 <= k < i ==> rk[k] == K[k + 4]
    {
      var w := m.schedule.xor(K[i], m.schedule.mix(K[i + 1], K[i + 2], K[i + 3], m.ck[i]));
      Put(m.schedule, m.ck, x, K, i, w);
      rk[i] := K[i + 4];
      i := i + 1;
    }
    assert rk[..] == K[..][4..];
  }

  /** The first j words of the output, as bytes. */
  ghost function OutputTo<W, B>(m: Core<W, B>, w: seq<W>, j: nat): (b: seq<B>)
    requires |w| == 4 && j <= 4
    ensures |b| == 4 * j
  {
    if j == 0 then [] else OutputTo(m, w, j - 1) + Bytes(m, w[4 - j])
  }

  lemma OutputToAll<W, B>(m: Core<W, B>, w: seq<W>, j: nat)
    requires |w| == 4 && j == 4
    ensures OutputTo(m, w, j) == Output(m, w)
  {
    assert OutputTo(m, w, j - 3) == Bytes(m, w[3]);
    assert OutputTo(m, w, j - 2) == Bytes(m, w[3]) + Bytes(m, w[2]);
  }

  /** Part of a buffer replaced. */
  ghost function Splice<B>(d: seq<B>, p: nat, b: seq<B>): (r: seq<B>)
    requires p + |b| <= |d|
    ensures |r| == |d|
  {
    d[..p] + b + d[p + |b|..]
  }

  lemma SpliceMore<B>(d: seq<B>, p: nat, b: seq<B>, c: seq<B>)
    requires p + |b| + |c| <= |d|
    ensures Splice(Splice(d, p, b), p + |b|, c) == Splice(d, p, b + c)
  {
  }

  /** The output loop: words 35 to 32, most significant byte first. */
  method Store<W, B>(m: Core<W, B>, dst: array<B>, d0: nat, X: array<W>)
    requires d0 + 16 <= dst.Length && X.Length == 36 && (X as object) != dst
    modifies dst
    ensures dst[..] == Splice(old(dst[..]), d0, Output(m, X[32..]))
  {
    var j := 0;
    ghost var w, before := X[32..], dst[..];
    assert Splice(before, d0, []) == before;
    while j < 4
      invariant 0 <= j <= 4 && dst[..] == Splice(before, d0, OutputTo(m, w, j))
    {
      SpliceMore(before, d0, OutputTo(m, w, j), Bytes(m, w[3 - j]));
      assert OutputTo(m, w, j + 1) == OutputTo(m, w, j) + Bytes(m, w[3 - j]) && w[3 - j] == X[35 - j];
      StoreWord(m, dst, d0 + 4 * j, X[35 - j]);
      j := j + 1;
    }
    OutputToAll(m, w, j);
  }

  method StoreWord<W, B>(m: Core<W, B>, dst: array<B>, p: nat, w: W)
    requires p + 4 <= dst.Length
    modifies dst
    ensures dst[..] == Splice(old(dst[..]), p, Bytes(m, w))
  {
    dst[p] := m.byte(w, 0);
    dst[p + 1] := m.byte(w, 1);
    dst[p + 2] := m.byte(w, 2);
    dst[p + 3] := m.byte(w, 3);
  }

  /** The rounds with the round keys in order, and in reverse. */
  method Forward<W, B>(m: Core<W, B>, rk: array<W>, x: seq<W>, X: array<W>)
    requires rk.Length == ROUNDS && X.Length == 36 && |x| == 4 && X[..4] == x && X != rk
    modifies X
    ensures X[..] == States(m.cipher, rk[..], x, ROUNDS)
  {
    var i := 0;
    while i < ROUNDS
      invariant 0 <= i <= ROUNDS && Filled(m.cipher, rk[..], x, X[..], i)
    {
      var w := m.cipher.xor(X[i], m.cipher.mix(X[i + 1], X[i + 2], X[i + 3], rk[i]));
      Put(m.cipher, rk[..], x, X, i, w);
      i := i + 1;
    }
    assert X[..][..36] == X[..];
  }

  method Backward<W, B>(m: Core<W, B>, rk: array<W>, x: seq<W>, X: array<W>)
    requires rk.Length == ROUNDS && X.Length == 36 && |x| == 4 && X[..4] == x && X != rk
    modifies X
    ensures X[..] == States(m.cipher, Reversed(rk[..]), x, ROUNDS)
  {
    var i := 0;
    ghost var back := Reversed(rk[..]);
    while i < ROUNDS
      invariant 0 <= i <= ROUNDS && Filled(m.cipher, back, x, X[..], i)
    {
      assert rk[31 - i] == back[i];
      var w := m.cipher.xor(X[i], m.cipher.mix(X[i + 1], X[i + 2], X[i + 3], rk[31 - i]));
      Put(m.cipher, back, x, X, i, w);
      i := i + 1;
    }
    assert X[..][..36] == X[..];
  }

  /** SM4_Encrypt; source and destination may be the same bytes. */
  method Encrypt<W(0), B>(m: Core<W, B>, key: seq<B>, src: array<B>, s0: nat, dst: array<B>, d0: nat)
    requires |key| == 16 && |m.fk| == 4 && |m.ck| == ROUNDS && s0 + 16 <= src.Length && d0 + 16 <= dst.Length
    modifies dst
    ensures dst[..] == Splice(old(dst[..]), d0, Encrypted(m, key, old(src[s0..s0 + 16])))
  {
    var rk := new W[ROUNDS];
    KeySchedule(m, key, rk);
    var X := new W[36];
    var x := Words(m, src[s0..s0 + 16]);
    Begin(X, x);
    Forward(m, rk, x, X);
    Store(m, dst, d0, X);
  }

  /** SM4_Decrypt: the same rounds with the round keys from the last to the first. */
  method Decrypt<W(0), B>(m: Core<W, B>, key: seq<B>, src: array<B>, s0: nat, dst: array<B>, d0: nat)
    requires |key| == 16 && |m.fk| == 4 && |m.ck| == ROUNDS && s0 + 16 <= src.Length && d0 + 16 <= dst.Length
    modifies dst
    ensures dst[..] == Splice(old(dst[..]), d0, Decrypted(m, key, old(src[s0..s0 + 16])))
  {
    var rk := new W[ROUNDS];
    KeySchedule(m, key, rk);
    var X := new W[36];
    var x := Words(m, src[s0..s0 + 16]);
    Begin(X, x);
    Backward(m, rk, x, X);
    Store(m, dst, d0, X);
  }
}
