/** The binary modular inverse: vli_mod_inv. */
module ModInv {
  import opened Arith
  import opened Limbs
  import opened Vli
  import opened Mult
  import Div
  import opened ModArith

  ghost predicate Divides(d: int, a: int)
    requires d > 0
  {
    a % d == 0
  }

  lemma DividesIntro(d: int, a: int, k: int)
    requires d > 0 && a == k * d
    ensures Divides(d, a)
  {
    DivModUnique(a, d, k, 0);
  }

  lemma DividesElim(d: int, a: int) returns (k: int)
    requires d > 0 && Divides(d, a)
    ensures a == k * d
  {
    k := a / d;
  }

  lemma DividesSum(d: int, a: int, b: int)
    requires d > 0 && Divides(d, a) && Divides(d, b)
    ensures Divides(d, a + b) && Divides(d, a - b)
  {
    var k := DividesElim(d, a);
    var l := DividesElim(d, b);
    assert a + b == (k + l) * d && a - b == (k - l) * d;
    DividesIntro(d, a + b, k + l);
    DividesIntro(d, a - b, k - l);
  }

  /** A divisor of an odd number and of 2h divides h. */
  lemma DividesHalf(d: int, h: int, b: int)
    requires d > 0 && b % 2 == 1
    ensures Divides(d, 2 * h) && Divides(d, b) <==> Divides(d, h) && Divides(d, b)
  {
    if Divides(d, h) {
      DividesSum(d, h, h);
    }
    if Divides(d, 2 * h) && Divides(d, b) {
      var k := DividesElim(d, 2 * h);
      var l := DividesElim(d, b);
      OddFactor(l, d);
      EvenFactor(k, d, h);
      assert h == (k / 2) * d;
      DividesIntro(d, h, k / 2);
    }
  }

  lemma OddFactor(l: int, d: int)
    requires (l * d) % 2 == 1
    ensures d % 2 == 1
  {
    var e := l * (d / 2);
    assert l * d == 2 * e + l * (d % 2);
  }

  /** a, b and x, y have the same common divisors. */
  ghost predicate SameDivisors(a: int, b: int, x: int, y: int) {
    forall d: int :: d > 0 ==> (Divides(d, a) && Divides(d, b) <==> Divides(d, x) && Divides(d, y))
  }

  /** g is the greatest common divisor of x and y: it divides both, and every common divisor divides it. */
  ghost predicate IsGcd(g: int, x: int, y: int) {
    g > 0 && Divides(g, x) && Divides(g, y)
    && forall d: int :: d > 0 && Divides(d, x) && Divides(d, y) ==> Divides(d, g)
  }

  lemma SameHalf(a: int, b: int, x: int, y: int)
    requires a % 2 == 0 && b % 2 == 1 && SameDivisors(a, b, x, y)
    ensures SameDivisors(a / 2, b, x, y)
  {
    forall d: int | d > 0
      ensures Divides(d, a / 2) && Divides(d, b) <==> Divides(d, x) && Divides(d, y)
    {
      DividesHalf(d, a / 2, b);
    }
  }

  lemma SameDiff(a: int, b: int, x: int, y: int)
    requires SameDivisors(a, b, x, y)
    ensures SameDivisors(a - b, b, x, y)
  {
    forall d: int | d > 0
      ensures Divides(d, a - b) && Divides(d, b) <==> Divides(d, x) && Divides(d, y)
    {
      if Divides(d, a) && Divides(d, b) { DividesSum(d, a, b); }
      if Divides(d, a - b) && Divides(d, b) { DividesSum(d, a - b, b); }
    }
  }

  lemma SameSwap(a: int, b: int, x: int, y: int)
    requires SameDivisors(a, b, x, y)
    ensures SameDivisors(b, a, x, y)
  {
  }

  lemma SameEnd(a: int, x: int, y: int)
    requires a > 0 && SameDivisors(a, a, x, y)
    ensures IsGcd(a, x, y)
  {
    DividesIntro(a, a, 1);
  }

  /** u halved modulo an odd m. */
  function HalfMod(u: nat, m: nat): (r: nat)
    requires m % 2 == 1 && u < m
    ensures r < m && (2 * r == u || 2 * r == u + m)
  {
    if u % 2 == 0 then u / 2 else (u + m) / 2
  }

  /** u - v modulo m. */
  function DiffMod(u: nat, v: nat, m: nat): (r: nat)
    requires u < m && v < m
    ensures r < m && (r == u - v || r == u - v + m)
  {
    if u < v then u + m - v else u - v
  }

  ghost predicate TimesIs(a: int, u: nat, x: int, m: nat)
    requires m > 0
  {
    Cong(a, u * x, m)
  }

  /** a is u times x modulo m; behind a bound variable, so that only proofs that name TimesIs see inside. */
  ghost predicate Times(a: int, u: nat, x: int, m: nat)
    requires m > 0
  {
    forall w: nat :: w == u ==> TimesIs(a, w, x, m)
  }

  lemma HalfModCong(a: int, u: nat, x: int, m: nat)
    requires m % 2 == 1 && u < m && a % 2 == 0 && Times(a, u, x, m)
    ensures Times(a / 2, HalfMod(u, m), x, m)
  {
    assert TimesIs(a, u, x, m);
    var r := HalfMod(u, m);
    if 2 * r == u { CongIntro(u, 2 * r, m, 0); } else { CongIntro(u, 2 * r, m, -1); }
    CongRefl(x, m);
    CongMul(u, 2 * r, x, x, m);
    CongTrans(a, u * x, 2 * r * x, m);
    assert 2 * r * x == 2 * (r * x);
    CancelTwo(a / 2, r * x, m);
  }

  lemma DiffModCong(a: int, b: int, u: nat, v: nat, x: int, m: nat)
    requires u < m && v < m && Times(a, u, x, m) && Times(b, v, x, m)
    ensures Times(a - b, DiffMod(u, v, m), x, m)
  {
    assert TimesIs(a, u, x, m) && TimesIs(b, v, x, m);
    var r := DiffMod(u, v, m);
    CongSub(a, u * x, b, v * x, m);
    if r == u - v { CongIntro(u - v, r, m, 0); } else { CongIntro(u - v, r, m, -1); }
    CongRefl(x, m);
    CongMul(u - v, r, x, x, m);
    assert u * x - v * x == (u - v) * x;
    CongTrans(a - b, (u - v) * x, r * x, m);
  }

  /** What every iteration keeps: a and b are u and v times the input, one of them is odd,
      and their common divisors are those of the input and the modulus. */
  ghost predicate State(a: int, b: int, u: nat, v: nat, x: int, m: nat) {
    && m % 2 == 1 && u < m && v < m && a > 0 && b > 0
    && (a % 2 == 1 || b % 2 == 1)
    && Times(a, u, x, m) && Times(b, v, x, m)
    && SameDivisors(a, b, x, m)
  }

  lemma StateSwap(a: int, b: int, u: nat, v: nat, x: int, m: nat)
    requires State(a, b, u, v, x, m)
    ensures State(b, a, v, u, x, m)
  {
    SameSwap(a, b, x, m);
  }

  lemma StateInit(x: nat, m: nat)
    requires x > 0 && m > 1 && m % 2 == 1
    ensures State(x, m, 1, 0, x, m)
  {
    CongRefl(x, m);
    assert 1 * x == x && 0 * x == 0;
    CongIntro(m, 0, m, 1);
    assert TimesIs(x, 1, x, m) && TimesIs(m, 0, x, m);
  }

  lemma StateHalf(a: int, b: int, u: nat, v: nat, x: int, m: nat)
    requires State(a, b, u, v, x, m) && a % 2 == 0
    ensures State(a / 2, b, HalfMod(u, m), v, x, m)
  {
    SameHalf(a, b, x, m);
    HalfModCong(a, u, x, m);
  }

  /** The difference before it is halved: even, and the state still holds. */
  lemma StateLess(a: int, b: int, u: nat, v: nat, x: int, m: nat, w: nat)
    requires State(a, b, u, v, x, m) && a % 2 == 1 && b % 2 == 1 && a > b && w == DiffMod(u, v, m)
    ensures State(a - b, b, w, v, x, m) && (a - b) % 2 == 0
  {
    SameDiff(a, b, x, m);
    DiffModCong(a, b, u, v, x, m);
  }

  lemma StateDiff(a: int, b: int, u: nat, v: nat, x: int, m: nat)
    requires State(a, b, u, v, x, m) && a % 2 == 1 && b % 2 == 1 && a > b
    ensures State((a - b) / 2, b, HalfMod(DiffMod(u, v, m), m), v, x, m)
  {
    var w := DiffMod(u, v, m);
    StateLess(a, b, u, v, x, m, w);
    StateHalf(a - b, b, w, v, x, m);
  }

  /** An inverse exists exactly when the result is one, which is exactly when the gcd is 1. */
  lemma InverseIffCoprime(r: nat, g: int, x: int, m: nat)
    requires m > 1 && IsGcd(g, x, m) && Cong(r * x, g, m)
    ensures Cong(r * x, 1, m) <==> g == 1
    ensures g != 1 ==> forall w: int :: !Cong(w * x, 1, m)
  {
    if g != 1 {
      forall w: int ensures !Cong(w * x, 1, m) {
        if Cong(w * x, 1, m) {
          var k := CongElim(w * x, 1, m);
          var i := DividesElim(g, x);
          var j := DividesElim(g, m);
          var z := w * i - k * j;
          assert 1 == z * g by {
            assert w * (i * g) == (w * i) * g;
            assert k * (j * g) == (k * j) * g;
            assert (w * i - k * j) * g == (w * i) * g - (k * j) * g;
          }
          UnitFactor(z, g);
        }
      }
    }
  }

  lemma UnitFactor(z: int, g: int)
    requires g > 0 && z * g == 1
    ensures g == 1
  {
    if z <= 0 { MulMono(g, z, 0); assert false; }
    MulMono(g, 1, z);
  }

  /** V(x) is even exactly when its lowest word is. */
  lemma LowBit(s: seq<nat>, n: nat)
    requires 0 < n <= |s|
    ensures Seg(s, 0, n, W64) % 2 == s[0] % 2
  {
    SegHead(s, 0, n, W64);
  }

  /** x := x / 2, for an even x. */
  method Halve(x: array<nat>, n: nat)
    requires 0 < n <= x.Length && Words(x) && V(x, n) % 2 == 0
    modifies x
    ensures Words(x) && V(x, n) == old(V(x, n)) / 2
  {
    var _, rem := RShift(W64, 2, W64 / 2, x, x, n);
  }

  /** An odd u gets the modulus added, so that the words left are even. */
  method AddIfOdd(u: array<nat>, mod: array<nat>, n: nat) returns (carry: nat)
    requires 0 < n <= u.Length && n <= mod.Length && u != mod && Words(u) && Words(mod) && V(mod, n) % 2 == 1
    modifies u
    ensures Words(u) && carry <= 1 && V(u, n) % 2 == 0
    ensures V(u, n) + Out(carry, W64, n) == old(V(u, n)) + if old(V(u, n)) % 2 == 0 then 0 else V(mod, n)
  {
    ghost var x, m := V(u, n), V(mod, n);
    LowBit(u[..], n);
    carry := 0;
    if u[0] % 2 != 0 {
      carry := Add(W64, u, u, mod, n);
      EvenWords(x, m, V(u, n), carry, n);
    }
  }

  /** The top bit, known to be clear, set. */
  method SetTop(u: array<nat>, n: nat)
    requires 0 < n <= u.Length && Words(u) && 2 * V(u, n) < Pow(W64, n)
    modifies u
    ensures Words(u) && 2 * V(u, n) == 2 * old(V(u, n)) + Pow(W64, n)
  {
    HalfTop(u[..], n);
    SetTopBit(u[..], n);
    ghost var before := u[..];
    u[n - 1] := u[n - 1] + W64 / 2;
    assert u[..] == before[n - 1 := u[n - 1]];
  }

  /** u halved modulo mod: the carry of u + mod returns as the top bit. */
  method HalveMod(u: array<nat>, mod: array<nat>, n: nat)
    requires 0 < n <= u.Length && n <= mod.Length && u != mod && Words(u) && Words(mod)
    requires V(mod, n) % 2 == 1 && V(u, n) < V(mod, n)
    modifies u
    ensures Words(u) && V(u, n) == HalfMod(old(V(u, n)), V(mod, n))
  {
    var carry := AddIfOdd(u, mod, n);
    SegBound(u[..], 0, n, W64);
    Halve(u, n);
    if carry != 0 {
      SetTop(u, n);
    }
  }

  lemma EvenWords(u: nat, m: nat, z: nat, carry: nat, n: nat)
    requires n > 0 && u % 2 == 1 && m % 2 == 1 && z + Out(carry, W64, n) == u + m
    ensures z % 2 == 0
  {
    PowEven(n);
    EvenSum(u, m, z, Out(carry, W64, n));
  }

  lemma EvenSum(u: int, m: int, z: int, c: int)
    requires u % 2 == 1 && m % 2 == 1 && c % 2 == 0 && z + c == u + m
    ensures z % 2 == 0
  {
  }

  lemma PowEven(n: nat)
    requires n > 0
    ensures Pow(W64, n) == 2 * (W64 / 2 * Pow(W64, n - 1)) && Pow(W64, n) % 2 == 0
  {
  }

  lemma SetTopBit(s: seq<nat>, n: nat)
    requires 0 < n <= |s|
    ensures 2 * Seg(s[n - 1 := s[n - 1] + W64 / 2], 0, n, W64) == 2 * Seg(s, 0, n, W64) + Pow(W64, n)
  {
    var z, p := s[n - 1 := s[n - 1] + W64 / 2], Pow(W64, n - 1);
    SegUpdate(s, z, 0, n - 1, W64);
    PowEven(n);
    assert (s[n - 1] + W64 / 2) * p == s[n - 1] * p + W64 / 2 * p;
  }

  /** After a right shift the top bit is free. */
  lemma HalfTop(s: seq<nat>, n: nat)
    requires 0 < n <= |s| && 2 * Seg(s, 0, n, W64) < Pow(W64, n)
    ensures s[n - 1] < W64 / 2
  {
    var p := Pow(W64, n - 1);
    PowEven(n);
    if s[n - 1] >= W64 / 2 {
      MulMono(p, W64 / 2, s[n - 1]);
      assert false;
    }
  }

  /** u := u - v modulo mod: the carry and the borrow cancel. */
  method SubMod(u: array<nat>, v: array<nat>, mod: array<nat>, n: nat)
    requires n <= u.Length && n <= v.Length && n <= mod.Length && u != mod && u != v
    requires Words(u) && Words(v) && Words(mod) && V(u, n) < V(mod, n) && V(v, n) < V(mod, n)
    modifies u
    ensures Words(u) && V(u, n) == DiffMod(old(V(u, n)), V(v, n), V(mod, n))
  {
    ghost var u0, v0, m := V(u, n), V(v, n), V(mod, n);
    SegBound(mod[..], 0, n, W64);
    var c := Cmp(W64, u, 0, v, n);
    if c < 0 {
      var _ := Add(W64, u, u, mod, n);
    }
    SegBound(u[..], 0, n, W64);
    var _ := Sub(W64, u, u, 0, v, n);
    SegBound(u[..], 0, n, W64);
  }

  /** The even branch: a and u halved. */
  method HalveStep(a: array<nat>, u: array<nat>, b: array<nat>, v: array<nat>, mod: array<nat>, n: nat, ghost x: nat)
    requires 0 < n <= a.Length && n <= b.Length && n <= u.Length && n <= v.Length && n <= mod.Length
    requires a != u && a != b && a != v && a != mod && u != b && u != v && u != mod
    requires Words(a) && Words(b) && Words(u) && Words(v) && Words(mod)
    requires State(V(a, n), V(b, n), V(u, n), V(v, n), x, V(mod, n)) && V(a, n) % 2 == 0
    modifies a, u
    ensures Words(a) && Words(u) && V(a, n) == old(V(a, n)) / 2
    ensures State(V(a, n), V(b, n), V(u, n), V(v, n), x, V(mod, n))
  {
    StateHalf(V(a, n), V(b, n), V(u, n), V(v, n), x, V(mod, n));
    Halve(a, n);
    HalveMod(u, mod, n);
  }

  /** The odd branch: a and u reduced by b and v, then halved. */
  method DiffStep(a: array<nat>, u: array<nat>, b: array<nat>, v: array<nat>, mod: array<nat>, n: nat, ghost x: nat)
    requires 0 < n <= a.Length && n <= b.Length && n <= u.Length && n <= v.Length && n <= mod.Length
    requires a != u && a != b && a != v && a != mod && u != b && u != v && u != mod
    requires Words(a) && Words(b) && Words(u) && Words(v) && Words(mod)
    requires State(V(a, n), V(b, n), V(u, n), V(v, n), x, V(mod, n))
    requires V(a, n) % 2 == 1 && V(b, n) % 2 == 1 && V(a, n) > V(b, n)
    modifies a, u
    ensures Words(a) && Words(u) && V(a, n) < old(V(a, n))
    ensures State(V(a, n), V(b, n), V(u, n), V(v, n), x, V(mod, n))
  {
    StateDiff(V(a, n), V(b, n), V(u, n), V(v, n), x, V(mod, n));
    SubHalve(a, b, n);
    SubMod(u, v, mod, n);
    HalveMod(u, mod, n);
  }

  /** a := (a - b) / 2 for odd a > b. */
  method SubHalve(a: array<nat>, b: array<nat>, n: nat)
    requires 0 < n <= a.Length && n <= b.Length && a != b && Words(a) && Words(b)
    requires V(a, n) % 2 == 1 && V(b, n) % 2 == 1 && V(a, n) > V(b, n)
    modifies a
    ensures Words(a) && V(a, n) == (old(V(a, n)) - V(b, n)) / 2
  {
    ghost var x, y := V(a, n), V(b, n);
    var borrow := Sub(W64, a, a, 0, b, n);
    SegBound(a[..], 0, n, W64);
    NoBorrow(x, y, V(a, n), borrow, Pow(W64, n));
    Halve(a, n);
  }

  lemma NoBorrow(x: int, y: int, z: int, borrow: int, p: int)
    requires x > y && x % 2 == 1 && y % 2 == 1 && z < p && z + y == x + if borrow == 0 then 0 else p
    ensures z == x - y && z % 2 == 0
  {
  }

  /** The loop body: halve an even operand, or subtract the smaller odd one from the larger. */
  method ReduceStep(a: array<nat>, u: array<nat>, b: array<nat>, v: array<nat>, mod: array<nat>, n: nat, greater: bool,
                    ghost x: nat)
    requires 0 < n <= a.Length && n <= b.Length && n <= u.Length && n <= v.Length && n <= mod.Length
    requires a != u && a != b && a != v && a != mod && u != b && u != v && u != mod
    requires b != v && b != mod && v != mod
    requires Words(a) && Words(b) && Words(u) && Words(v) && Words(mod)
    requires State(V(a, n), V(b, n), V(u, n), V(v, n), x, V(mod, n))
    requires V(a, n) != V(b, n) && (greater <==> V(a, n) > V(b, n))
    modifies a, u, b, v
    ensures Words(a) && Words(b) && Words(u) && Words(v)
    ensures State(V(a, n), V(b, n), V(u, n), V(v, n), x, V(mod, n))
    ensures V(a, n) + V(b, n) < old(V(a, n) + V(b, n))
  {
    LowBit(a[..], n);
    LowBit(b[..], n);
    if a[0] % 2 == 0 {
      HalveStep(a, u, b, v, mod, n, x);
    } else if b[0] % 2 == 0 {
      StateSwap(V(a, n), V(b, n), V(u, n), V(v, n), x, V(mod, n));
      HalveStep(b, v, a, u, mod, n, x);
      StateSwap(V(b, n), V(a, n), V(v, n), V(u, n), x, V(mod, n));
    } else if greater {
      DiffStep(a, u, b, v, mod, n, x);
    } else {
      StateSwap(V(a, n), V(b, n), V(u, n), V(v, n), x, V(mod, n));
      DiffStep(b, v, a, u, mod, n, x);
      StateSwap(V(b, n), V(a, n), V(v, n), V(u, n), x, V(mod, n));
    }
  }

  /** The loop of vli_mod_inv; it ends with a equal to b, both the gcd. */
  method Reduce(a: array<nat>, u: array<nat>, b: array<nat>, v: array<nat>, mod: array<nat>, n: nat, ghost x: nat)
    requires 0 < n <= a.Length && n <= b.Length && n <= u.Length && n <= v.Length && n <= mod.Length
    requires a != u && a != b && a != v && a != mod && u != b && u != v && u != mod
    requires b != v && b != mod && v != mod
    requires Words(a) && Words(b) && Words(u) && Words(v) && Words(mod)
    requires State(V(a, n), V(b, n), V(u, n), V(v, n), x, V(mod, n))
    modifies a, u, b, v
    ensures Words(u) && V(a, n) == V(b, n)
    ensures State(V(a, n), V(b, n), V(u, n), V(v, n), x, V(mod, n))
  {
    var cmp := Cmp(W64, a, 0, b, n);
    while cmp != 0
      invariant Words(a) && Words(b) && Words(u) && Words(v)
      invariant State(V(a, n), V(b, n), V(u, n), V(v, n), x, V(mod, n))
      invariant cmp == 0 || cmp == 1 || cmp == -1
      invariant (cmp == 1 <==> V(a, n) > V(b, n)) && (cmp == -1 <==> V(a, n) < V(b, n))
      decreases V(a, n) + V(b, n)
    {
      ReduceStep(a, u, b, v, mod, n, cmp > 0, x);
      cmp := Cmp(W64, a, 0, b, n);
    }
  }

  method IsZero(s: array<nat>, n: nat) returns (r: bool)
    requires n <= s.Length
    ensures r <==> V(s, n) == 0
  {
    var i := 0;
    while i < n
      invariant 0 <= i <= n
      invariant forall j :: 0 <= j < i ==> s[j] == 0
    {
      if s[i] != 0 {
        if V(s, n) == 0 { SegZeroDigits(s[..], 0, n, W64); }
        return false;
      }
      i := i + 1;
    }
    SegZero(s[..], 0, n, W64);
    return true;
  }

  /** A fresh copy of the first n words. */
  method Copy(s: array<nat>, n: nat) returns (r: array<nat>)
    requires n <= s.Length && Words(s)
    ensures fresh(r) && r.Length == n && Words(r) && V(r, n) == V(s, n)
  {
    r := new nat[n](i => 0);
    VliSet(r, s, n);
    SegSame(s[..], 0, r[..], 0, n, W64);
  }

  /** A fresh word array holding a one-word number. */
  method Small(d: nat, n: nat) returns (r: array<nat>)
    requires n > 0 && d < W64
    ensures fresh(r) && r.Length == n && Words(r) && V(r, n) == d
  {
    r := new nat[n](i => 0);
    r[0] := d;
    SegHead(r[..], 0, n, W64);
    SegZero(r[..], 1, n - 1, W64);
  }

  /** result := input^-1 mod mod for an odd modulus. For every nonzero input the result times the
      input is the gcd of input and modulus, so it is the inverse exactly when they are coprime. */
  method VliModInv(result: array<nat>, input: array<nat>, mod: array<nat>, n: nat) returns (ghost g: int)
    requires 0 < n <= result.Length && n <= input.Length && n <= mod.Length
    requires Words(result) && Words(input) && Words(mod)
    requires V(mod, n) > 1 && V(mod, n) % 2 == 1
    modifies result
    ensures Words(result)
    ensures V(result, n) < old(V(mod, n))
    ensures old(V(input, n)) == 0 ==> V(result, n) == 0
    ensures old(V(input, n)) > 0 ==>
      && IsGcd(g, old(V(input, n)), old(V(mod, n)))
      && Cong(V(result, n) * old(V(input, n)), g, old(V(mod, n)))
  {
    g := 0;
    ghost var x, m := V(input, n), V(mod, n);
    var zero := IsZero(input, n);
    if zero {
      Div.Clear(result, n);
      SegZero(result[..], 0, n, W64);
      return;
    }
    var a := Copy(input, n);
    var b := Copy(mod, n);
    var u := Small(1, n);
    var v := Small(0, n);
    StateInit(x, m);
    Reduce(a, u, b, v, mod, n, x);
    g := V(a, n);
    SameEnd(g, x, m);
    assert TimesIs(g, V(u, n), x, m);
    CongSym(g, V(u, n) * x, m);
    ghost var us := u[..];
    VliSet(result, u, n);
    SegSame(us, 0, result[..], 0, n, W64);
  }
}
