/** The round structure of SM4: each state word is the word four places before, xored with a mix of the three words
    between and a round key. Nothing here depends on what the mix computes. */
module Feistel {
  import opened Collections

  /** xor, and the mix of three state words and a round key. */
  datatype Rounds<!W> = Rounds(xor: (W, W) -> W, mix: (W, W, W, W) -> W)

  /** Xoring twice changes nothing. */
  ghost predicate Cancels<W(!new)>(r: Rounds<W>) {
    forall a: W, t: W :: r.xor(r.xor(a, t), t) == a
  }

  /** The mix reads its three words in no particular order. */
  ghost predicate Unordered<W(!new)>(r: Rounds<W>) {
    forall b: W, c: W, d: W, k: W :: r.mix(b, c, d, k) == r.mix(d, c, b, k)
  }

  /** The next word of the state from the last four. */
  function Next<W>(r: Rounds<W>, s: seq<W>, n: nat, k: W): W
    requires n + 3 < |s|
  {
    r.xor(s[n], r.mix(s[n + 1], s[n + 2], s[n + 3], k))
  }

  /** The state words after n rounds, from the first on. */
  function States<W>(r: Rounds<W>, rk: seq<W>, x: seq<W>, n: nat): (s: seq<W>)
    requires |x| == 4 && n <= |rk|
    ensures |s| == n + 4
  {
    if n == 0 then x
    else
      var s := States(r, rk, x, n - 1);
      s + [Next(r, s, n - 1, rk[n - 1])]
  }

  /** A word does not change once it is there. */
  lemma {:induction false} StatesPrefix<W>(r: Rounds<W>, rk: seq<W>, x: seq<W>, m: nat, n: nat)
    requires |x| == 4 && m <= n <= |rk|
    ensures States(r, rk, x, m) == States(r, rk, x, n)[..m + 4]
    decreases n
  {
    if m < n { StatesPrefix(r, rk, x, m, n - 1); }
  }

  /** Word k + 4 follows from the four before it. */
  lemma StatesNext<W>(r: Rounds<W>, rk: seq<W>, x: seq<W>, n: nat, k: nat)
    requires |x| == 4 && k < n <= |rk|
    ensures States(r, rk, x, n)[k + 4] == Next(r, States(r, rk, x, n), k, rk[k])
  {
    StatesPrefix(r, rk, x, k + 1, n);
    StatesPrefix(r, rk, x, k, n);
  }

  /** Main result: with the round keys reversed, the rounds retrace the state words backwards. */
  lemma {:induction false} Retrace<W(!new)>(r: Rounds<W>, rk: seq<W>, x: seq<W>, y: seq<W>, n: nat, k: nat)
    requires |x| == 4 && |y| == 4 && n == |rk| && k < n + 4 && Cancels(r) && Unordered(r)
    requires forall j :: 0 <= j < 4 ==> y[j] == States(r, rk, x, n)[n + 3 - j]
    ensures States(r, Reversed(rk), y, n)[k] == States(r, rk, x, n)[n + 3 - k]
    decreases k
  {
    var s := States(r, rk, x, n);
    if k < 4 {
      StatesPrefix(r, Reversed(rk), y, 0, n);
    } else {
      Retrace(r, rk, x, y, n, k - 4);
      Retrace(r, rk, x, y, n, k - 3);
      Retrace(r, rk, x, y, n, k - 2);
      Retrace(r, rk, x, y, n, k - 1);
      var m := n + 3 - k;
      StatesNext(r, Reversed(rk), y, n, k - 4);
      StatesNext(r, rk, x, n, m);
      assert r.mix(s[m + 3], s[m + 2], s[m + 1], rk[m]) == r.mix(s[m + 1], s[m + 2], s[m + 3], rk[m]);
    }
  }

  /** Four words out, read back in reverse, give the four words in, in reverse. */
  lemma RoundTrip<W(!new)>(r: Rounds<W>, rk: seq<W>, x: seq<W>, y: seq<W>, n: nat)
    requires |x| == 4 && n == |rk| && Cancels(r) && Unordered(r)
    requires var s := States(r, rk, x, n); y == [s[n + 3], s[n + 2], s[n + 1], s[n]]
    ensures States(r, Reversed(rk), y, n)[n..] == [x[3], x[2], x[1], x[0]]
  {
    StatesPrefix(r, rk, x, 0, n);
    Retrace(r, rk, x, y, n, n);
    Retrace(r, rk, x, y, n, n + 1);
    Retrace(r, rk, x, y, n, n + 2);
    Retrace(r, rk, x, y, n, n + 3);
  }
}
