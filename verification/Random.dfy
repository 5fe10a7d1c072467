/** The linear congruential generator of lib/libc.c (lines 21-39): its static state, the two
    calls that change it, and the full-period theorem for the constants the file uses. */
module Random {
  import opened Arithmetic

  newtype uint32 = x: int | 0 <= x < 0x1_0000_0000
  newtype uint64 = x: int | 0 <= x < 0x1_0000_0000_0000_0000
  newtype int64 = x: int | -0x8000_0000_0000_0000 <= x < 0x8000_0000_0000_0000

  const MULTIPLIER: nat := 1664525
  const INCREMENT: nat := 1013904223
  const MODULUS: nat := 0x8000_0000

  /** One call, as a function of the stored number. */
  function Next(x: nat): nat {
    (MULTIPLIER * x + INCREMENT) % MODULUS
  }

  /** The stored number after n calls; for n > 0 this is also what the n-th call returns. */
  function Iterate(x: nat, n: nat): nat {
    if n == 0 then x else Next(Iterate(x, n - 1))
  }

  /** The static variable rand_number and the two functions that assign it. */
  class Generator {
    var randNumber: uint32

    constructor ()
      ensures randNumber == 0
    {
      randNumber := 0;
    }

    /** The argument is an unsigned long; storing it in an unsigned int keeps its low 32 bits. */
    method RandSeed(seed: uint64)
      modifies this
      ensures randNumber as int == seed as int % 0x1_0000_0000
    {
      randNumber := (seed % 0x1_0000_0000) as uint32;
    }

    /** Every intermediate value has type int64, so verification rules out overflow of the long. */
    method RandNum() returns (r: uint64)
      modifies this
      ensures r as int == randNumber as int == Next(old(randNumber) as int)
      ensures r as int == Iterate(old(randNumber) as int, 1) < MODULUS
    {
      var product: int64 := 1664525 * (randNumber as int64);
      var sum: int64 := product + 1013904223;
      randNumber := (sum % 0x8000_0000) as uint32;
      r := randNumber as uint64;
      assert Iterate(old(randNumber) as int, 1) == Next(Iterate(old(randNumber) as int, 0));
    }
  }

  // ----- powers of two and divisibility -----

  function Pow2(j: nat): (p: nat)
    ensures p > 0
  {
    if j == 0 then 1 else 2 * Pow2(j - 1)
  }

  lemma ModShift(a: int, k: int, m: int)
    requires m > 0
    ensures (a + k * m) % m == a % m
  {
    assert a + k * m == (a / m + k) * m + a % m;
    DivModUnique(a + k * m, a / m + k, a % m, m);
  }

  /** Equal remainders are the same thing as a difference divisible by the modulus. */
  lemma SameRemainder(a: int, b: int, m: int)
    requires m > 0
    ensures a % m == b % m <==> (a - b) % m == 0
  {
    if a % m == b % m {
      assert a - b == (a / m - b / m) * m + 0;
      DivModUnique(a - b, a / m - b / m, 0, m);
    }
    if (a - b) % m == 0 {
      var k := (a - b) / m;
      assert a == b + k * m;
      ModShift(b, k, m);
    }
  }

  lemma DoubleMod(y: int, p: int)
    requires p > 0
    ensures (2 * y) % (2 * p) == 2 * (y % p)
  {
    assert 2 * y == (y / p) * (2 * p) + 2 * (y % p) by {
      assert y == (y / p) * p + y % p;
    }
    DivModUnique(2 * y, y / p, 2 * (y % p), 2 * p);
  }

  lemma DoubledZero(x: int, y: int, m: int, p: int)
    requires p > 0 && x == 2 * y && m == 2 * p
    ensures x % m == 0 <==> y % p == 0
  {
    DoubleMod(y, p);
  }

  lemma OddNotZero(y: int, m: int, p: int)
    requires p > 0 && y % 2 == 1 && m == 2 * p
    ensures y % m != 0
  {
    var k := y / m;
    assert y == k * m + y % m;
    assert k * m == 2 * (k * p);
  }

  lemma EvenProduct(s: int, h: int, t: int)
    requires s == 2 * h
    ensures s * t == 2 * (h * t)
  {
  }

  lemma OddProduct(s: int, t: int)
    requires s % 2 == 1 && t % 2 == 1
    ensures (s * t) % 2 == 1
  {
    var a, b := s / 2, t / 2;
    assert s * t == (2 * a + 1) * (2 * b + 1) == 2 * (2 * a * b + a + b) + 1;
  }

  /** An odd factor does not change which powers of two divide a number. */
  lemma {:induction false} OddFactor(s: int, t: int, j: nat)
    requires t % 2 == 1
    ensures (s * t) % Pow2(j) == 0 <==> s % Pow2(j) == 0
    decreases j
  {
    if j == 0 {
    } else if s % 2 == 1 {
      OddProduct(s, t);
      OddNotZero(s, Pow2(j), Pow2(j - 1));
      OddNotZero(s * t, Pow2(j), Pow2(j - 1));
    } else {
      var h := s / 2;
      EvenProduct(s, h, t);
      OddFactor(h, t, j - 1);
      DoubledZero(s, h, Pow2(j), Pow2(j - 1));
      DoubledZero(s * t, h * t, Pow2(j), Pow2(j - 1));
    }
  }

  // ----- the recurrence without the reduction -----

  /** The sum 1 + a + ... + a^(n-1) for the multiplier a. */
  function GeometricSum(n: nat): nat {
    if n == 0 then 0 else 1 + MULTIPLIER * GeometricSum(n - 1)
  }

  function Unreduced(x: nat, n: nat): nat {
    if n == 0 then x else MULTIPLIER * Unreduced(x, n - 1) + INCREMENT
  }

  lemma {:induction false} UnreducedClosedForm(x: nat, n: nat)
    ensures Unreduced(x, n) - x == GeometricSum(n) * ((MULTIPLIER - 1) * x + INCREMENT)
  {
    if n > 0 {
      UnreducedClosedForm(x, n - 1);
      var a, g, d := MULTIPLIER, GeometricSum(n - 1), (MULTIPLIER - 1) * x + INCREMENT;
      assert a * (x + g * d) + INCREMENT - x == (1 + a * g) * d by {
        assert a * (g * d) == (a * g) * d;
      }
    }
  }

  lemma {:induction false} UnreducedCompose(x: nat, i: nat, n: nat)
    ensures Unreduced(x, i + n) == Unreduced(Unreduced(x, i), n)
    decreases n
  {
    if n > 0 {
      UnreducedCompose(x, i, n - 1);
      assert i + n - 1 == i + (n - 1);
    }
  }

  /** Reducing at every step changes nothing but a multiple of the modulus. */
  lemma {:induction false} IterateReduces(x: nat, n: nat)
    ensures (Iterate(x, n) - Unreduced(x, n)) % MODULUS == 0
  {
    if n == 0 {
    } else {
      IterateReduces(x, n - 1);
      var u, v := Iterate(x, n - 1), Unreduced(x, n - 1);
      SameRemainder(u, v, MODULUS);
      var k := (u - v) / MODULUS;
      assert MULTIPLIER * u + INCREMENT == (MULTIPLIER * v + INCREMENT) + (MULTIPLIER * k) * MODULUS;
      ModShift(MULTIPLIER * v + INCREMENT, MULTIPLIER * k, MODULUS);
      SameRemainder(Iterate(x, n), Unreduced(x, n), MODULUS);
    }
  }

  lemma {:induction false} SumOfDouble(k: nat)
    ensures GeometricSum(2 * k) == GeometricSum(k) * (2 + (MULTIPLIER - 1) * GeometricSum(k))
  {
    if k > 0 {
      SumOfDouble(k - 1);
      var a, s := MULTIPLIER, GeometricSum(k - 1);
      assert GeometricSum(2 * k) == 1 + a * GeometricSum(2 * k - 1);
      assert GeometricSum(2 * k - 1) == 1 + a * GeometricSum(2 * (k - 1));
      DoublePolynomial(a, s);
    }
  }

  lemma DoublePolynomial(a: int, s: int)
    ensures 1 + a * (1 + a * (s * (2 + (a - 1) * s))) == (1 + a * s) * (2 + (a - 1) * (1 + a * s))
  {
    var w := a * s;
    assert a * (s * (2 + (a - 1) * s)) == w * (2 + (a - 1) * s);
    assert (a - 1) * (1 + w) == (a - 1) + (a - 1) * w;
    assert a * (w * (2 + (a - 1) * s)) == w * (2 * a + (a - 1) * w) by {
      assert a * (2 + (a - 1) * s) == 2 * a + (a - 1) * w;
    }
    assert (1 + w) * (1 + a + (a - 1) * w) == 1 + a + (a - 1) * w + w * (1 + a + (a - 1) * w);
    assert w * (1 + a + (a - 1) * w) + (a - 1) * w == w * (2 * a + (a - 1) * w);
  }

  lemma TwiceOdd(s: int, w: int)
    ensures s * (2 + 4 * w) == 2 * (s * (1 + 2 * w))
  {
    assert 2 + 4 * w == 2 * (1 + 2 * w);
  }

  lemma OddCofactor(s: nat, g: nat) returns (odd: nat)
    requires g == s * (2 + (MULTIPLIER - 1) * s)
    ensures odd % 2 == 1 && g == 2 * (s * odd) && (1 + MULTIPLIER * g) % 2 == 1
  {
    var w := 416131 * s;
    odd := 1 + 2 * w;
    assert 2 + (MULTIPLIER - 1) * s == 2 + 4 * w;
    TwiceOdd(s, w);
  }

  lemma SumHalves(k: nat) returns (odd: nat)
    ensures odd % 2 == 1 && GeometricSum(2 * k) == 2 * (GeometricSum(k) * odd)
    ensures GeometricSum(2 * k + 1) % 2 == 1
  {
    SumOfDouble(k);
    odd := OddCofactor(GeometricSum(k), GeometricSum(2 * k));
  }

  /** The sum of n powers is divisible by exactly the powers of two that divide n. */
  lemma {:induction false} SumDivisibility(n: nat, j: nat)
    ensures GeometricSum(n) % Pow2(j) == 0 <==> n % Pow2(j) == 0
    decreases n
  {
    if j == 0 || n == 0 {
    } else {
      var k := n / 2;
      var s := GeometricSum(k);
      var odd := SumHalves(k);
      if n == 2 * k + 1 {
        OddNotZero(GeometricSum(n), Pow2(j), Pow2(j - 1));
        OddNotZero(n, Pow2(j), Pow2(j - 1));
      } else {
        SumDivisibility(k, j - 1);
        OddFactor(s, odd, j - 1);
        DoubledZero(GeometricSum(n), s * odd, Pow2(j), Pow2(j - 1));
        DoubledZero(n, k, Pow2(j), Pow2(j - 1));
      }
    }
  }

  lemma UnreducedPeriod(x: nat, n: nat, j: nat)
    ensures (Unreduced(x, n) - x) % Pow2(j) == 0 <==> n % Pow2(j) == 0
  {
    UnreducedClosedForm(x, n);
    var d := (MULTIPLIER - 1) * x + INCREMENT;
    assert d == 2 * (832262 * x) + INCREMENT;
    OddFactor(GeometricSum(n), d, j);
    SumDivisibility(n, j);
  }

  lemma {:induction false} Pow2Divides(j: nat, k: nat)
    requires j <= k
    ensures Pow2(k) % Pow2(j) == 0
    decreases k
  {
    if j == 0 {
    } else if j < k {
      Pow2Divides(j, k - 1);
      var p, r := Pow2(j), Pow2(k - 1);
      var q := r / p;
      assert r == q * p;
      assert 2 * r == (2 * q) * p + 0;
      DivModUnique(2 * r, 2 * q, 0, p);
    } else {
      DivModUnique(Pow2(k), 1, 0, Pow2(j));
    }
  }

  lemma ModulusIsPow2()
    ensures Pow2(31) == MODULUS
  {
    assert Pow2(8) == 256 by {
      assert Pow2(4) == 16;
    }
    assert Pow2(12) == 4096;
    assert Pow2(16) == 65536;
    assert Pow2(20) == 0x10_0000;
    assert Pow2(24) == 0x100_0000;
    assert Pow2(28) == 0x1000_0000;
  }

  /** Agreement modulo 2^31 implies agreement modulo every smaller power of two. */
  lemma CoarserAgreement(d: int, j: nat)
    requires j <= 31 && d % MODULUS == 0
    ensures d % Pow2(j) == 0
  {
    ModulusIsPow2();
    Pow2Divides(j, 31);
    DividesThrough(d, MODULUS, Pow2(j));
  }

  lemma DividesThrough(d: int, m: int, p: int)
    requires m > 0 && p > 0 && d % m == 0 && m % p == 0
    ensures d % p == 0
  {
    var q, k := m / p, d / m;
    assert m == q * p && d == k * m;
    assert k * (q * p) == (k * q) * p;
    DivModUnique(d, k * q, 0, p);
  }

  lemma IterateLowBits(x: nat, n: nat, j: nat)
    requires j <= 31
    ensures Iterate(x, n) % Pow2(j) == Unreduced(x, n) % Pow2(j)
  {
    IterateReduces(x, n);
    CoarserAgreement(Iterate(x, n) - Unreduced(x, n), j);
    SameRemainder(Iterate(x, n), Unreduced(x, n), Pow2(j));
  }

  /** For every seed, the low j bits after i calls and after k calls agree exactly when 2^j
      divides k - i: their period is 2^j, no less. */
  lemma LowBitsPeriod(x: nat, j: nat, i: nat, k: nat)
    requires j <= 31 && i <= k
    ensures Iterate(x, i) % Pow2(j) == Iterate(x, k) % Pow2(j) <==> (k - i) % Pow2(j) == 0
  {
    IterateLowBits(x, i, j);
    IterateLowBits(x, k, j);
    UnreducedApart(x, j, i, k);
    SameClasses(Iterate(x, i), Iterate(x, k), Unreduced(x, i), Unreduced(x, k), k - i, Pow2(j));
  }

  lemma UnreducedApart(x: nat, j: nat, i: nat, k: nat)
    requires i <= k
    ensures (Unreduced(x, k) - Unreduced(x, i)) % Pow2(j) == 0 <==> (k - i) % Pow2(j) == 0
  {
    UnreducedCompose(x, i, k - i);
    assert i + (k - i) == k;
    UnreducedPeriod(Unreduced(x, i), k - i, j);
  }

  lemma SameClasses(a: int, b: int, u: int, v: int, d: int, p: int)
    requires p > 0 && a % p == u % p && b % p == v % p && ((v - u) % p == 0 <==> d % p == 0)
    ensures a % p == b % p <==> d % p == 0
  {
    SameRemainder(v, u, p);
  }

  lemma HalfPeriodLater(x: nat, j: nat, n: nat)
    requires 1 <= j <= 31
    ensures Iterate(x, n) % Pow2(j - 1) == Iterate(x, n + Pow2(j - 1)) % Pow2(j - 1)
    ensures Iterate(x, n) % Pow2(j) != Iterate(x, n + Pow2(j - 1)) % Pow2(j)
  {
    var p := Pow2(j - 1);
    LowBitsPeriod(x, j - 1, n, n + p);
    LowBitsPeriod(x, j, n, n + p);
    DivModUnique(p, 1, 0, p);
    DivModUnique(p, 0, p, 2 * p);
  }

  /** Within any 2^j consecutive states the low j bits take every value. */
  lemma {:induction false} LowBitsHit(x: nat, start: nat, j: nat, y: nat) returns (n: nat)
    requires j <= 31
    ensures start <= n < start + Pow2(j) && Iterate(x, n) % Pow2(j) == y % Pow2(j)
    decreases j
  {
    if j == 0 {
      n := start;
    } else {
      var p := Pow2(j - 1);
      n := LowBitsHit(x, start, j - 1, y);
      if Iterate(x, n) % Pow2(j) != y % Pow2(j) {
        HalfPeriodLater(x, j, n);
        ThirdChoice(Iterate(x, n), Iterate(x, n + p), y, p);
        n := n + p;
      }
    }
  }

  /** Modulo 2p a residue class modulo p splits in two, so there is no third choice. */
  lemma ThirdChoice(a: int, b: int, c: int, p: int)
    requires p > 0 && a % p == b % p == c % p
    requires a % (2 * p) != b % (2 * p) && a % (2 * p) != c % (2 * p)
    ensures b % (2 * p) == c % (2 * p)
  {
    Halves(a, p);
    Halves(b, p);
    Halves(c, p);
  }

  lemma HalvesAux(a: int, q: int, r: int, p: int)
    requires 0 <= r < p && a == q * p + r
    ensures a % (2 * p) == r || a % (2 * p) == r + p
  {
    var h := q / 2;
    if q == 2 * h {
      assert (2 * h) * p == h * (2 * p);
      DivModUnique(a, h, r, 2 * p);
    } else {
      assert q == 2 * h + 1;
      assert (2 * h + 1) * p == h * (2 * p) + p;
      DivModUnique(a, h, r + p, 2 * p);
    }
  }

  lemma Halves(a: int, p: int)
    requires p > 0
    ensures a % (2 * p) == a % p || a % (2 * p) == a % p + p
  {
    var q, r := a / p, a % p;
    assert a == q * p + r;
    HalvesAux(a, q, r, p);
  }

  /** Any 2^31 consecutive calls return each number below 2^31 exactly once, whatever the seed. */
  lemma FullPeriod(x: nat, start: nat, y: nat) returns (n: nat)
    requires start >= 1 && y < MODULUS
    ensures start <= n < start + MODULUS && Iterate(x, n) == y
    ensures forall k :: start <= k < start + MODULUS && Iterate(x, k) == y ==> k == n
  {
    ModulusIsPow2();
    n := LowBitsHit(x, start, 31, y);
    forall k | start <= k < start + MODULUS && Iterate(x, k) == y
      ensures k == n
    {
      if k <= n {
        LowBitsPeriod(x, 31, k, n);
      } else {
        LowBitsPeriod(x, 31, n, k);
      }
    }
  }

  /** The first two numbers of an unseeded generator. */
  lemma FirstNumbers()
    ensures Iterate(0, 1) == 1013904223 && Iterate(0, 2) == 1196435762
  {
    assert Iterate(0, 1) == Next(Iterate(0, 0)) == 1013904223;
    assert Iterate(0, 2) == Next(Iterate(0, 1));
  }
}
