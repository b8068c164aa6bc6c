/** rand and srand: the minimal standard generator by Schrage's method, on 32-bit longs. */
module Random {
  import opened Arithmetic

  const MODULUS := 2147483647
  const FACTOR := 16807
  const DIVISOR := 127773
  const REMAINDER := 2836

  /** The inverse of FACTOR modulo MODULUS. */
  const INVERSE := 1407677000

  predicate Word(x: int) {
    -0x8000_0000 <= x <= 0x7FFF_FFFF
  }

  predicate Seed(x: int) {
    1 <= x <= MODULUS - 1
  }

  /** The generator without any bound on the product. */
  function Step(x: int): int {
    FACTOR * x % MODULUS
  }

  /** The n-th number after the seed. */
  function Nth(seed: int, n: nat): int {
    if n == 0 then seed else Step(Nth(seed, n - 1))
  }

  class Generator {
    var lastVal: int

    /** srand */
    method Srand(seed: int)
      modifies this
      ensures lastVal == seed
    {
      lastVal := seed;
    }

    /** rand: one step of the generator from any long, every intermediate a long. */
    method Rand() returns (r: int)
      requires Word(lastVal)
      modifies this
      ensures r == lastVal == Step(old(lastVal)) && 0 <= r < MODULUS
    {
      Schrage(lastVal);
      var lastDiv := Quotient(lastVal, DIVISOR);
      var lastRem := Remainder(lastVal, DIVISOR);
      lastVal := FACTOR * lastRem - REMAINDER * lastDiv;
      if lastVal < 0 {
        lastVal := lastVal + MODULUS;
      }
      r := lastVal;
    }
  }

  /** The numbers that n calls in a row return after srand(seed). */
  method Outputs(seed: int, n: nat) returns (out: seq<int>)
    requires Seed(seed)
    ensures |out| == n && forall k | 0 <= k < n :: out[k] == Pow(FACTOR, k + 1) * seed % MODULUS != 0
  {
    hide Nth, Pow, Step;
    var g := new Generator;
    g.Srand(seed);
    NthNext(seed, 0);
    out := [];
    while |out| < n
      invariant |out| <= n && g.lastVal == Nth(seed, |out|) && Word(g.lastVal)
      invariant forall k | 0 <= k < |out| :: out[k] == Nth(seed, k + 1)
    {
      NthNext(seed, |out|);
      var r := g.Rand();
      out := out + [r];
    }
    forall k | 0 <= k < n ensures out[k] == Pow(FACTOR, k + 1) * seed % MODULUS != 0 {
      NthIsPow(seed, k + 1);
    }
  }

  lemma NthNext(seed: int, n: nat)
    ensures Nth(seed, 0) == seed && Nth(seed, n + 1) == Step(Nth(seed, n))
  {
  }

  lemma Reduce(n: int, q: int, t: int)
    requires n == q * MODULUS + t && -MODULUS < t < MODULUS
    ensures n % MODULUS == if t < 0 then t + MODULUS else t
  {
    var k := if t < 0 then q - 1 else q;
    assert n == k * MODULUS + (if t < 0 then t + MODULUS else t);
  }

  /** Schrage's decomposition: both products and their difference are longs, and the difference gives the step. */
  lemma Schrage(x: int)
    requires Word(x)
    ensures var q, r := Quotient(x, DIVISOR), Remainder(x, DIVISOR);
            var t := FACTOR * r - REMAINDER * q;
            Word(FACTOR * r) && Word(REMAINDER * q) && Word(t) && Step(x) == if t < 0 then t + MODULUS else t
  {
    var q, r := Quotient(x, DIVISOR), Remainder(x, DIVISOR);
    assert -16807 <= q <= 16807 && -DIVISOR < r < DIVISOR;
    Reduce(FACTOR * x, q, FACTOR * r - REMAINDER * q);
  }

  /** Multiplying by the inverse undoes a step. */
  lemma StepBack(x: int)
    ensures INVERSE * Step(x) % MODULUS == x % MODULUS
  {
    var k := FACTOR * x / MODULUS;
    assert FACTOR * x == k * MODULUS + Step(x);
    assert INVERSE * FACTOR == 11017 * MODULUS + 1;
    var j := 11017 * x - INVERSE * k + x / MODULUS;
    assert x == x / MODULUS * MODULUS + x % MODULUS;
    assert INVERSE * Step(x) == j * MODULUS + x % MODULUS;
    Reduce(INVERSE * Step(x), j, x % MODULUS);
  }

  /** Only a multiple of the modulus leads to 0, where the generator stays. */
  lemma StuckAtZero(x: int)
    ensures Step(x) == 0 <==> x % MODULUS == 0
  {
    StepBack(x);
    if x % MODULUS == 0 {
      Reduce(FACTOR * x, FACTOR * (x / MODULUS), 0);
    }
  }

  lemma StepInjective(x: int, y: int)
    requires Seed(x) && Seed(y) && Step(x) == Step(y)
    ensures x == y
  {
    StepBack(x);
    StepBack(y);
  }

  /** The n-th number in closed form; it is never 0. */
  lemma {:induction false} NthIsPow(seed: int, n: nat)
    requires Seed(seed)
    ensures Nth(seed, n) == Pow(FACTOR, n) * seed % MODULUS && Seed(Nth(seed, n))
  {
    hide Nth, Pow, Step;
    if n == 0 {
      Start(seed);
    } else {
      NthIsPow(seed, n - 1);
      NthNext(seed, n - 1);
      StuckAtZero(Nth(seed, n - 1));
      InRange(Nth(seed, n - 1));
      StepModulo(Pow(FACTOR, n - 1) * seed);
      PowerNext(seed, n);
    }
  }

  lemma Start(seed: int)
    requires Seed(seed)
    ensures Nth(seed, 0) == seed == Pow(FACTOR, 0) * seed % MODULUS
  {
    assert Pow(FACTOR, 0) * seed == seed;
  }

  lemma InRange(x: int)
    ensures 0 <= Step(x) < MODULUS
  {
  }

  lemma PowerNext(seed: int, n: nat)
    requires n > 0
    ensures Step(Pow(FACTOR, n - 1) * seed) == Pow(FACTOR, n) * seed % MODULUS
  {
    Associate(Pow(FACTOR, n - 1), seed);
    assert Pow(FACTOR, n) == FACTOR * Pow(FACTOR, n - 1);
  }

  /** A step may be taken modulo MODULUS. */
  lemma StepModulo(p: int)
    ensures Step(p % MODULUS) == Step(p)
  {
    var k, m := p / MODULUS, FACTOR * (p % MODULUS);
    assert p == k * MODULUS + p % MODULUS;
    assert FACTOR * p == (FACTOR * k + m / MODULUS) * MODULUS + m % MODULUS;
    Reduce(FACTOR * p, FACTOR * k + m / MODULUS, m % MODULUS);
  }

  lemma Associate(a: int, b: int)
    ensures a * FACTOR * b == FACTOR * (a * b)
  {
  }

  /** Different seeds never meet: their n-th numbers differ. */
  lemma {:induction false} SeedsNeverMeet(x: int, y: int, n: nat)
    requires Seed(x) && Seed(y) && x != y
    ensures Nth(x, n) != Nth(y, n)
  {
    if n > 0 {
      SeedsNeverMeet(x, y, n - 1);
      NthIsPow(x, n - 1);
      NthIsPow(y, n - 1);
      if Nth(x, n) == Nth(y, n) {
        StepInjective(Nth(x, n - 1), Nth(y, n - 1));
      }
    }
  }
}
