// The linear congruential generator over uint64: its state repeats after exactly 2^64
// draws, from every seed.
module Lcg {
  import opened Market

  function Next(seed: uint64): uint64 {
    (1664525 * seed + 1013904223) % 0x1_0000_0000_0000_0000
  }

  // The state after n draws.
  function After(seed: uint64, n: nat): uint64 {
    if n == 0 then seed else Next(After(seed, n - 1))
  }

  // The n-th power of the multiplier, and the sum of the powers below it.
  function Power(n: nat): nat {
    if n == 0 then 1 else 1664525 * Power(n - 1)
  }

  function GeoSum(n: nat): nat {
    if n == 0 then 0 else 1664525 * GeoSum(n - 1) + 1
  }

  function Pow2(k: nat): (p: nat)
    ensures p > 0
  {
    if k == 0 then 1 else 2 * Pow2(k - 1)
  }

  // ---- Divisibility by powers of two ----

  function Times(d: int, q: int): int {
    d * q
  }

  ghost predicate Divides(d: int, x: int) {
    exists q: int :: Times(d, q) == x
  }

  lemma DividesDouble(p: int, x: int)
    ensures Divides(2 * p, 2 * x) <==> Divides(p, x)
  {
    if Divides(p, x) {
      var q :| Times(p, q) == x;
      assert (2 * p) * q == 2 * (p * q);
      assert Times(2 * p, q) == 2 * x;
    }
    if Divides(2 * p, 2 * x) {
      var q :| Times(2 * p, q) == 2 * x;
      assert (2 * p) * q == 2 * (p * q);
      assert Times(p, q) == x;
    }
  }

  lemma EvenMultiple(p: int, x: int)
    requires Divides(2 * p, x)
    ensures x % 2 == 0
  {
    var q :| Times(2 * p, q) == x;
    assert (2 * p) * q == 2 * (p * q);
  }

  lemma OddTimes(x: int, o: int)
    requires o % 2 == 1
    ensures (x * o) % 2 == x % 2
  {
    var h := o / 2;
    assert x * o == x * (2 * h + 1) == 2 * (x * h) + x;
  }

  // An odd factor does not change which powers of two divide.
  lemma {:induction false} OddCancels(x: int, o: int, k: nat)
    requires o % 2 == 1
    ensures Divides(Pow2(k), x * o) <==> Divides(Pow2(k), x)
    decreases k
  {
    if k == 0 {
      assert Times(1, x) == x && Times(1, x * o) == x * o;
      return;
    }
    var p := Pow2(k - 1);
    OddTimes(x, o);
    if x % 2 == 1 {
      assert !Divides(2 * p, x * o) by { if Divides(2 * p, x * o) { EvenMultiple(p, x * o); } }
      assert !Divides(2 * p, x) by { if Divides(2 * p, x) { EvenMultiple(p, x); } }
    } else {
      var y := x / 2;
      assert x == 2 * y;
      assert x * o == 2 * (y * o) by { assert (2 * y) * o == 2 * (y * o); }
      DividesDouble(p, y * o);
      DividesDouble(p, y);
      OddCancels(y, o, k - 1);
    }
  }

  // ---- The geometric sum ----

  lemma {:induction false} PowerModFour(n: nat)
    ensures Power(n) % 4 == 1
  {
    if n > 0 {
      PowerModFour(n - 1);
    }
  }

  lemma AffineParity(g: nat, n: nat)
    requires g % 2 == n % 2
    ensures (1664525 * g + 1) % 2 == (n + 1) % 2
  {
    var h, r := g / 2, g % 2;
    assert g == 2 * h + r;
    assert 1664525 * g + 1 == 2 * (1664525 * h + 832262 * r) + (r + 1);
  }

  lemma {:induction false} GeoSumParity(n: nat)
    ensures GeoSum(n) % 2 == n % 2
  {
    if n > 0 {
      GeoSumParity(n - 1);
      AffineParity(GeoSum(n - 1), n - 1);
    }
  }

  lemma TimesStep(a: int, p: int, g: int)
    ensures Times(a * p, g) == a * Times(p, g)
  {
    assert (a * p) * g == a * (p * g);
  }

  lemma {:induction false} GeoSumSplit(m: nat, n: nat)
    ensures GeoSum(m + n) == GeoSum(m) + Times(Power(m), GeoSum(n))
  {
    if m == 0 {
      assert Times(1, GeoSum(n)) == GeoSum(n);
    } else {
      GeoSumSplit(m - 1, n);
      TimesStep(1664525, Power(m - 1), GeoSum(n));
      assert (m - 1) + n == m + n - 1;
    }
  }

  lemma ExpandOdd(o: int, g: int)
    ensures Times(2 * o - 1, g) == 2 * (g * o) - g
  {
    assert (2 * o - 1) * g == (2 * o) * g - g;
    assert (2 * o) * g == 2 * (g * o);
  }

  lemma OddHalf(p: nat) returns (o: nat)
    requires p % 4 == 1
    ensures o % 2 == 1 && p == 2 * o - 1
  {
    var q := p / 4;
    assert p == 4 * q + 1;
    o := 2 * q + 1;
  }

  lemma DoubledBy(s: int, g: int, p: int, o: int)
    requires s == g + Times(p, g) && p == 2 * o - 1
    ensures s == 2 * (g * o)
  {
    ExpandOdd(o, g);
  }

  lemma GeoSumDouble(m: nat) returns (o: nat)
    ensures o % 2 == 1 && GeoSum(m + m) == 2 * (GeoSum(m) * o)
  {
    PowerModFour(m);
    GeoSumSplit(m, m);
    o := OddHalf(Power(m));
    DoubledBy(GeoSum(m + m), GeoSum(m), Power(m), o);
  }

  // 2^k divides the sum of the first n powers exactly when it divides n.
  lemma {:induction false} GeoSumDivisible(k: nat, n: nat)
    ensures Divides(Pow2(k), GeoSum(n)) <==> Divides(Pow2(k), n)
  {
    if k == 0 {
      assert Times(1, GeoSum(n)) == GeoSum(n) && Times(1, n) == n;
      return;
    }
    var p := Pow2(k - 1);
    GeoSumParity(n);
    if n % 2 == 1 {
      assert !Divides(2 * p, GeoSum(n)) by { if Divides(2 * p, GeoSum(n)) { EvenMultiple(p, GeoSum(n)); } }
      assert !Divides(2 * p, n) by { if Divides(2 * p, n) { EvenMultiple(p, n); } }
    } else {
      var m := n / 2;
      assert n == m + m;
      var o := GeoSumDouble(m);
      DividesDouble(p, GeoSum(m) * o);
      OddCancels(GeoSum(m), o, k - 1);
      GeoSumDivisible(k - 1, m);
      DividesDouble(p, m);
    }
  }

  // ---- The period ----

  lemma ModStep(u: int)
    ensures (1664525 * (u % TWO64) + 1013904223) % TWO64 == (1664525 * u + 1013904223) % TWO64
  {
    var q := u / TWO64;
    assert u % TWO64 == u - TWO64 * q;
    SameResidue(1664525 * u + 1013904223, 1664525 * q, 1664525 * (u % TWO64) + 1013904223);
  }

  lemma SameResidue(x: int, q: int, y: int)
    requires y == x - TWO64 * q
    ensures y % TWO64 == x % TWO64
  {
    var d := x / TWO64 - q - y / TWO64;
    assert TWO64 * d == y % TWO64 - x % TWO64;
    assert d == 0;
  }

  function Drift(seed: uint64): nat {
    1664524 * seed + 1013904223
  }

  lemma DriftStep(seed: nat, g: nat, d: nat)
    requires d == 1664524 * seed + 1013904223
    ensures 1664525 * (seed + Times(g, d)) + 1013904223 == seed + Times(1664525 * g + 1, d)
  {
    assert Times(1664525 * g + 1, d) == 1664525 * Times(g, d) + d;
  }

  lemma {:induction false} ClosedForm(seed: uint64, n: nat)
    ensures After(seed, n) == (seed + Times(GeoSum(n), Drift(seed))) % TWO64
  {
    if n == 0 {
      assert Times(0, Drift(seed)) == 0;
    } else {
      ClosedForm(seed, n - 1);
      ClosedStep(seed, After(seed, n - 1), GeoSum(n - 1), Drift(seed));
    }
  }

  lemma ClosedStep(seed: uint64, s: uint64, g: nat, d: nat)
    requires d == 1664524 * seed + 1013904223 && s == (seed + Times(g, d)) % TWO64
    ensures Next(s) == (seed + Times(1664525 * g + 1, d)) % TWO64
  {
    ModStep(seed + Times(g, d));
    DriftStep(seed, g, d);
  }

  lemma {:induction false} AfterCompose(seed: uint64, m: nat, n: nat)
    ensures After(After(seed, m), n) == After(seed, m + n)
  {
    if n > 0 {
      AfterCompose(seed, m, n - 1);
    }
  }

  lemma {:induction false} Pow2Add(a: nat, b: nat)
    ensures Pow2(a + b) == Times(Pow2(a), Pow2(b))
  {
    if a == 0 {
      assert Times(1, Pow2(b)) == Pow2(b);
    } else {
      Pow2Add(a - 1, b);
      TimesStep(2, Pow2(a - 1), Pow2(b));
    }
  }

  lemma Pow2At64()
    ensures Pow2(64) == TWO64
  {
    assert Pow2(8) == 256;
    Pow2Add(8, 8);
    Pow2Add(16, 16);
    Pow2Add(32, 32);
  }

  lemma ReturnsIffMultiple(seed: uint64, x: int)
    ensures (seed + x) % TWO64 == seed <==> x % TWO64 == 0
  {}

  lemma DividesMod(x: int)
    ensures Divides(TWO64, x) <==> x % TWO64 == 0
  {
    if x % TWO64 == 0 {
      assert Times(TWO64, x / TWO64) == x;
    }
  }

  lemma DriftIsOdd(seed: uint64)
    ensures Drift(seed) % 2 == 1
  {
    assert Drift(seed) == 2 * (832262 * seed + 506952111) + 1;
  }

  lemma DriftedSum(n: nat, d: int, k: nat)
    requires d % 2 == 1 && Pow2(k) == TWO64
    ensures Times(GeoSum(n), d) % TWO64 == 0 <==> n % TWO64 == 0
  {
    DividesMod(Times(GeoSum(n), d));
    OddCancels(GeoSum(n), d, k);
    GeoSumDivisible(k, n);
    DividesMod(n);
  }

  // From any seed, the generator is back at its seed exactly after the multiples of 2^64 draws.
  lemma FullPeriod(seed: uint64, n: nat)
    ensures After(seed, n) == seed <==> n % TWO64 == 0
  {
    var x := DriftedDraws(seed, n);
    ReturnsIffMultiple(seed, x);
  }

  lemma DriftedDraws(seed: uint64, n: nat) returns (x: int)
    ensures After(seed, n) == (seed + x) % TWO64
    ensures x % TWO64 == 0 <==> n % TWO64 == 0
  {
    ClosedForm(seed, n);
    DriftIsOdd(seed);
    x := PeriodOfSum(n, Drift(seed));
  }

  lemma PeriodOfSum(n: nat, d: int) returns (x: int)
    requires d % 2 == 1
    ensures x == Times(GeoSum(n), d)
    ensures x % TWO64 == 0 <==> n % TWO64 == 0
  {
    x := Times(GeoSum(n), d);
    Pow2At64();
    DriftedSum(n, d, 64);
  }

  // So two draws coincide only a multiple of 2^64 apart.
  lemma DrawsDistinct(seed: uint64, i: nat, j: nat)
    requires i <= j
    ensures After(seed, i) == After(seed, j) <==> (j - i) % TWO64 == 0
  {
    AfterCompose(seed, i, j - i);
    FullPeriod(After(seed, i), j - i);
  }
}
