/** Windowed modular exponentiation: vli_mod_exp. */
module ModExp {
  import opened Arith
  import opened Limbs
  import opened Vli
  import opened Mult
  import opened ModArith
  import opened ModInv

  /** The remainder of a product. */
  lemma ModProduct(a: int, b: int, x: int, y: int, m: int)
    requires m > 0 && Cong(a, x, m) && Cong(b, y, m)
    ensures Cong((a * b) % m, x * y, m)
  {
    CongMod(a * b, m);
    CongMul(a, x, b, y, m);
    CongTrans((a * b) % m, a * b, x * y, m);
  }

  lemma PowFour(l: nat, e: nat)
    ensures Pow(l, 4 * e) == (Pow(l, e) * Pow(l, e)) * (Pow(l, e) * Pow(l, e))
  {
    PowAdd(l, e, e);
    PowAdd(l, 2 * e, 2 * e);
  }

  ghost predicate IsPower(v: nat, l: nat, e: nat, m: nat)
    requires m > 0
  {
    Cong(v, Pow(l, e), m) && (e > 0 ==> v < m)
  }

  /** t holds l^e modulo m, reduced once e is not zero; behind a bound variable, so that only proofs that name IsPower
      see inside. */
  ghost predicate Holds(t: array<nat>, n: nat, l: nat, e: nat, m: nat)
    requires n <= t.Length && m > 0
    reads t
  {
    Words(t) && forall x: nat :: x == e ==> IsPower(V(t, n), l, x, m)
  }

  lemma SquareTwice(t: nat, t1: nat, t2: nat, l: nat, e: nat, m: nat)
    requires m > 0 && Cong(t, Pow(l, e), m) && t1 == (t * t) % m && t2 == (t1 * t1) % m
    ensures Cong(t2, Pow(l, 4 * e), m)
  {
    var x := Pow(l, e);
    ModProduct(t, t, x, x, m);
    ModProduct(t1, t1, x * x, x * x, m);
    PowFour(l, e);
  }

  /** Multiplying by a power of l adds to the exponent. */
  lemma TimesPower(t: nat, b: nat, t1: nat, l: nat, e: nat, s: nat, m: nat)
    requires m > 0 && Cong(t, Pow(l, e), m) && Cong(b, Pow(l, s), m) && t1 == (t * b) % m
    ensures Cong(t1, Pow(l, e + s), m)
  {
    ModProduct(t, b, Pow(l, e), Pow(l, s), m);
    PowAdd(l, e, s);
  }

  /** The powers l, l^2 and l^3 modulo m that a two-bit window selects. */
  ghost predicate Table(b0: array<nat>, b1: array<nat>, b2: array<nat>, n: nat, l: nat, m: nat)
    requires n <= b0.Length && n <= b1.Length && n <= b2.Length && m > 0
    reads b0, b1, b2
  {
    && Words(b0) && Words(b1) && Words(b2)
    && Cong(V(b0, n), Pow(l, 1), m) && Cong(V(b1, n), Pow(l, 2), m) && Cong(V(b2, n), Pow(l, 3), m)
  }

  method MakeTable(left: array<nat>, mod: array<nat>, n: nat) returns (b0: array<nat>, b1: array<nat>, b2: array<nat>)
    requires n <= left.Length && Words(left) && Modulus(mod, n)
    ensures fresh(b0) && fresh(b1) && fresh(b2)
    ensures b0.Length == n && b1.Length == n && b2.Length == n
    ensures Table(b0, b1, b2, n, V(left, n), V(mod, n))
  {
    ghost var l, m := V(left, n), V(mod, n);
    b0 := Copy(left, n);
    b1 := new nat[n](i => 0);
    b2 := new nat[n](i => 0);
    ModMult(b1, b0, left, mod, n);
    ModMult(b2, b1, left, mod, n);
    TableValues(l, V(b1, n), V(b2, n), m);
  }

  lemma TableValues(l: nat, x: nat, y: nat, m: nat)
    requires m > 0 && x == (l * l) % m && y == (x * l) % m
    ensures Cong(l, Pow(l, 1), m) && Cong(x, Pow(l, 2), m) && Cong(y, Pow(l, 3), m)
  {
    assert Pow(l, 1) == l * Pow(l, 0) == l;
    assert Pow(l, 2) == l * l;
    CongRefl(l, m);
    CongMod(l * l, m);
    CongMod(x * l, m);
    CongMul(x, l * l, l, l, m);
    CongTrans(y, x * l, l * l * l, m);
    assert Pow(l, 3) == l * (l * l) == l * l * l;
  }

  /** One window: t := t^4 * l^s. */
  method WindowStep(t: array<nat>, b0: array<nat>, b1: array<nat>, b2: array<nat>, s: nat, mod: array<nat>, n: nat,
                    ghost l: nat, ghost e: nat)
    requires n <= t.Length && n <= b0.Length && n <= b1.Length && n <= b2.Length && Modulus(mod, n) && s < 4
    requires t != b0 && t != b1 && t != b2 && t != mod
    requires Table(b0, b1, b2, n, l, V(mod, n)) && Holds(t, n, l, e, V(mod, n))
    modifies t
    ensures Holds(t, n, l, 4 * e + s, V(mod, n))
  {
    ghost var m, t0 := V(mod, n), V(t, n);
    assert IsPower(t0, l, e, m);
    ModMult(t, t, t, mod, n);
    ghost var t1 := V(t, n);
    ModMult(t, t, t, mod, n);
    ghost var t2 := V(t, n);
    SquareTwice(t0, t1, t2, l, e, m);
    if s != 0 {
      var b := if s == 1 then b0 else if s == 2 then b1 else b2;
      ghost var bv := V(b, n);
      ModMult(t, t, b, mod, n);
      TimesPower(t2, bv, V(t, n), l, 4 * e, s, m);
    }
  }

  /** The exponent word d cut at window r: x above it, rest below it and in the top of ci. */
  ghost predicate Cut(d: nat, x: nat, r: nat, ci: nat, rest: nat) {
    r <= 32 && rest < Pow(4, r) && d == x * Pow(4, r) + rest && ci == rest * Pow(4, 32 - r)
  }

  lemma Pow4At32()
    ensures Pow(4, 32) == W64 && Pow(4, 31) == W64 / 4
  {
    PowAdd(4, 16, 16);
    PowAdd(4, 8, 8);
    PowAdd(4, 4, 4);
    PowAdd(4, 2, 2);
  }

  lemma CutStart(d: nat)
    requires d < W64
    ensures Cut(d, 0, 32, d, d)
  {
    Pow4At32();
  }

  lemma CutEnd(d: nat, x: nat, ci: nat, rest: nat)
    requires Cut(d, x, 0, ci, rest)
    ensures d == x
  {
    assert x * Pow(4, 0) == x;
  }

  lemma CutTop(rest: nat, p: nat, q: nat, s: nat, low: nat)
    requires p * q == W64 / 4 && rest == s * p + low && low < p && rest < 4 * p
    ensures s < 4 && (rest * q) / (W64 / 4) == s
  {
    if s >= 4 { MulMono(p, 4, s); assert false; }
    LowBelow(p, q, low);
    assert rest * q == s * (p * q) + low * q;
    DivModUnique(rest * q, W64 / 4, s, low * q);
  }

  lemma CutShift(rest: nat, p: nat, q: nat, s: nat, low: nat)
    requires p * q == W64 / 4 && rest == s * p + low && low < p
    ensures (rest * q * 4) % W64 == low * (4 * q)
  {
    LowBelow(p, q, low);
    assert rest * q == s * (p * q) + low * q;
    assert rest * q * 4 == s * W64 + 4 * (low * q);
    DivModUnique(rest * q * 4, W64, s, 4 * (low * q));
    assert low * (4 * q) == 4 * (low * q);
  }

  lemma LowBelow(p: nat, q: nat, low: nat)
    requires p * q == W64 / 4 && low < p
    ensures low * q < W64 / 4
  {
    MulMono(q, low + 1, p);
    assert q * (low + 1) == low * q + q;
  }

  lemma CutSplit(d: nat, x: nat, p: nat, rest: nat, s: nat, low: nat)
    requires d == x * (4 * p) + rest && rest == s * p + low
    ensures d == (4 * x + s) * p + low
  {
  }

  lemma Split(rest: nat, p: nat) returns (s: nat, low: nat)
    requires p > 0
    ensures rest == s * p + low && low < p
  {
    s, low := rest / p, rest % p;
  }

  /** Shifting ci left by two bits moves the next window into x. */
  lemma CutStep(d: nat, x: nat, r: nat, ci: nat, rest: nat) returns (low: nat)
    requires r > 0 && Cut(d, x, r, ci, rest)
    ensures ci / (W64 / 4) < 4 && Cut(d, 4 * x + ci / (W64 / 4), r - 1, (ci * 4) % W64, low)
  {
    var p, q := Pow(4, r - 1), Pow(4, 32 - r);
    PowPos(4, r - 1);
    assert p * q == W64 / 4 by {
      Pow4At32();
      PowAdd(4, r - 1, 32 - r);
    }
    var s;
    s, low := Split(rest, p);
    CutTop(rest, p, q, s, low);
    CutShift(rest, p, q, s, low);
    CutSplit(d, x, p, rest, s, low);
  }

  lemma CutSkip(d: nat, r: nat, ci: nat, rest: nat) returns (low: nat)
    requires d > 0 && Cut(d, 0, r, ci, rest) && ci / (W64 / 4) == 0
    ensures r > 0 && Cut(d, 0, r - 1, (ci * 4) % W64, low)
  {
    assert r != 0;
    low := CutStep(d, 0, r, ci, rest);
  }

  /** Leading zero windows of a nonzero word, dropped: ci is shifted until a window is nonzero. */
  method SkipZeros(d: nat) returns (ci: nat, bits: nat, ghost r: nat, ghost rest: nat)
    requires 0 < d < W64
    ensures bits == 2 * r && r <= 32 && ci < W64 && Cut(d, 0, r, ci, rest)
  {
    ci, bits, r, rest := d, 64, 32, d;
    CutStart(d);
    var top := ci / (W64 / 4);
    while top == 0
      invariant bits == 2 * r && r <= 32 && ci < W64 && top == ci / (W64 / 4)
      invariant Cut(d, 0, r, ci, rest)
      decreases r
    {
      rest := CutSkip(d, r, ci, rest);
      ci, bits, r := (ci * 4) % W64, bits - 2, r - 1;
      top := ci / (W64 / 4);
    }
  }

  /** The exponent after k windows of value x have been appended to e. */
  ghost function Appended(e: nat, k: nat, x: nat): nat {
    e * Pow(4, k) + x
  }

  lemma AppendWindow(e: nat, k: nat, x: nat, s: nat)
    ensures Appended(e, k + 1, 4 * x + s) == 4 * Appended(e, k, x) + s
  {
    var p := Pow(4, k);
    assert e * (4 * p) == 4 * (e * p);
  }

  /** The top window of ci, and ci with that window shifted out. */
  method Advance(ci: nat, ghost d: nat, ghost x: nat, ghost r: nat, ghost rest: nat)
      returns (s: nat, next: nat, ghost low: nat)
    requires r > 0 && Cut(d, x, r, ci, rest)
    ensures s < 4 && next < W64 && Cut(d, 4 * x + s, r - 1, next, low)
  {
    s, next := ci / (W64 / 4), (ci * 4) % W64;
    low := CutStep(d, x, r, ci, rest);
  }

  /** The r windows left in ci, from the highest. */
  method Windows(t: array<nat>, b0: array<nat>, b1: array<nat>, b2: array<nat>, ci0: nat, bits: nat,
                 mod: array<nat>, n: nat, ghost l: nat, ghost e: nat, ghost d: nat, ghost r: nat, ghost rest0: nat)
    requires n <= t.Length && n <= b0.Length && n <= b1.Length && n <= b2.Length && Modulus(mod, n)
    requires t != b0 && t != b1 && t != b2 && t != mod
    requires Table(b0, b1, b2, n, l, V(mod, n)) && Holds(t, n, l, e, V(mod, n))
    requires bits == 2 * r && ci0 < W64 && Cut(d, 0, r, ci0, rest0)
    modifies t
    ensures Holds(t, n, l, Appended(e, r, d), V(mod, n))
  {
    var ci: nat, j: nat := ci0, 0;
    ghost var x: nat, rest: nat, k: nat := 0, rest0, 0;
    assert Appended(e, 0, 0) == e;
    while j < bits
      invariant j == 2 * k && k <= r && ci < W64
      invariant Cut(d, x, r - k, ci, rest)
      invariant Holds(t, n, l, Appended(e, k, x), V(mod, n))
    {
      ghost var acc := Appended(e, k, x);
      var s;
      s, ci, rest := Advance(ci, d, x, r - k, rest);
      WindowStep(t, b0, b1, b2, s, mod, n, l, acc);
      AppendWindow(e, k, x, s);
      x, j, k := 4 * x + s, j + 2, k + 1;
    }
    CutEnd(d, x, ci, rest);
  }

  lemma AppendedWord(e: nat, d: nat)
    ensures Appended(e, 32, d) == d + W64 * e
  {
    Pow4At32();
  }

  /** All windows of one exponent word; leading zero windows are skipped in the top word only. */
  method ExpWord(t: array<nat>, b0: array<nat>, b1: array<nat>, b2: array<nat>, d: nat, top: bool,
                 mod: array<nat>, n: nat, ghost l: nat, ghost e: nat)
    requires n <= t.Length && n <= b0.Length && n <= b1.Length && n <= b2.Length && Modulus(mod, n)
    requires t != b0 && t != b1 && t != b2 && t != mod && d < W64
    requires Table(b0, b1, b2, n, l, V(mod, n)) && Holds(t, n, l, e, V(mod, n))
    requires top ==> e == 0 && d > 0
    modifies t
    ensures Holds(t, n, l, d + W64 * e, V(mod, n))
  {
    AppendedWord(e, d);
    if top {
      var ci, bits, r, rest := SkipZeros(d);
      assert Appended(0, r, d) == d;
      Windows(t, b0, b1, b2, ci, bits, mod, n, l, 0, d, r, rest);
    } else {
      CutStart(d);
      Windows(t, b0, b1, b2, d, 64, mod, n, l, e, d, 32, d);
    }
  }

  /** result := left^p mod mod, for an exponent of any number of words and every modulus but zero. Only an exponent of
      zero with a modulus of one goes wrong: it leaves one. */
  method VliModExp(result: array<nat>, left: array<nat>, p: array<nat>, mod: array<nat>, n: nat)
    requires n <= result.Length && n <= left.Length && n <= p.Length && Modulus(mod, n)
    requires Words(result) && Words(left) && Words(p)
    modifies result
    ensures Words(result)
    ensures V(result, n) == Pow(old(V(left, n)), old(V(p, n))) % old(V(mod, n)) <==>
      old(V(mod, n)) > 1 || old(V(p, n)) > 0
    ensures old(V(p, n)) == 0 ==> V(result, n) == 1
  {
    var b0, b1, b2 := MakeTable(left, mod, n);
    ghost var l, e, m := V(left, n), V(p, n), V(mod, n);
    var t := ExpLoop(b0, b1, b2, p, mod, n, l);
    ghost var ts := t[..];
    assert IsPower(V(t, n), l, e, m);
    ExpValue(V(t, n), l, e, m);
    VliSet(result, t, n);
    SegSame(ts, 0, result[..], 0, n, W64);
  }

  lemma ExpValue(t: nat, l: nat, e: nat, m: nat)
    requires m > 0 && IsPower(t, l, e, m) && (e == 0 ==> t == 1)
    ensures t == Pow(l, e) % m <==> m > 1 || e > 0
  {
    CongIffMod(t, Pow(l, e), m);
    if m > 1 || e > 0 { DivModUnique(t, m, 0, t); }
  }

  /** The exponent's words from the highest nonzero one, starting at one. */
  method ExpLoop(b0: array<nat>, b1: array<nat>, b2: array<nat>, p: array<nat>, mod: array<nat>, n: nat, ghost l: nat)
      returns (t: array<nat>)
    requires n <= b0.Length && n <= b1.Length && n <= b2.Length && n <= p.Length && Modulus(mod, n) && Words(p)
    requires Table(b0, b1, b2, n, l, V(mod, n))
    ensures fresh(t) && t.Length == n && Holds(t, n, l, V(p, n), V(mod, n))
    ensures V(p, n) == 0 ==> V(t, n) == 1
  {
    t := Small(1, n);
    var digits := NumDigits(p, n);
    TrimLeading(p[..], digits, n, W64);
    if digits > 0 { TopPositive(p[..], digits); }
    OneIsPower(l, V(mod, n));
    var i := digits;
    while i > 0
      invariant 0 <= i <= digits && fresh(t) && t.Length == n && (i == digits ==> V(t, n) == 1)
      invariant Holds(t, n, l, Seg(p[..], i, digits - i, W64), V(mod, n))
      modifies t
    {
      i := i - 1;
      ExpDigit(t, b0, b1, b2, p, digits, i, mod, n, l);
    }
  }

  method ExpDigit(t: array<nat>, b0: array<nat>, b1: array<nat>, b2: array<nat>, p: array<nat>, digits: nat, i: nat,
                  mod: array<nat>, n: nat, ghost l: nat)
    requires n <= t.Length && n <= b0.Length && n <= b1.Length && n <= b2.Length && Modulus(mod, n)
    requires t != b0 && t != b1 && t != b2 && t != mod && t != p && i < digits <= p.Length && Words(p)
    requires p[digits - 1] != 0
    requires Table(b0, b1, b2, n, l, V(mod, n)) && Holds(t, n, l, Seg(p[..], i + 1, digits - i - 1, W64), V(mod, n))
    modifies t
    ensures Holds(t, n, l, Seg(p[..], i, digits - i, W64), V(mod, n))
  {
    SegHead(p[..], i, digits - i, W64);
    ExpWord(t, b0, b1, b2, p[i], i == digits - 1, mod, n, l, Seg(p[..], i + 1, digits - i - 1, W64));
  }

  lemma OneIsPower(l: nat, m: nat)
    requires m > 0
    ensures IsPower(1, l, 0, m)
  {
    CongRefl(1, m);
  }

  lemma TopPositive(s: seq<nat>, k: nat)
    requires 0 < k <= |s| && s[k - 1] != 0
    ensures Seg(s, 0, k, W64) > 0
  {
    PowPos(W64, k - 1);
    MulMono(Pow(W64, k - 1), 1, s[k - 1]);
  }
}
