/** The random number generator: Schrage's way to multiply modulo a Mersenne prime without overflow. */
module Rand {

  const MAGIC_A: int := 16807
  const MERSENNE_PRIME: int := 2147483647
  const MAGIC_QUOTIENT: int := 127773
  const MAGIC_REMAINDER: int := 2836
  const AUTO_SEED: int := 0xDEADBEEF

  /** The inverse of the multiplier modulo the prime. */
  const INVERSE_A: int := 1407677000

  // Division in C truncates towards zero.
  function CDiv(a: int, b: int): int
    requires b > 0
  {
    if a >= 0 then a / b else 0 - (0 - a) / b
  }

  function CMod(a: int, b: int): int
    requires b > 0
  {
    a - CDiv(a, b) * b
  }

  predicate Word32(x: int) {
    -0x8000_0000 <= x < 0x8000_0000
  }

  /** The values the generator is meant to run through. */
  predicate InCycle(v: int) {
    1 <= v < MERSENNE_PRIME
  }

  /** The step as the code computes it. */
  function Step(v: int): int
  {
    var x := MAGIC_A * CMod(v, MAGIC_QUOTIENT) - MAGIC_REMAINDER * CDiv(v, MAGIC_QUOTIENT);
    if x <= 0 then x + MERSENNE_PRIME else x
  }

  /** _dmalloc_rand on the stored value. */
  function Drawn(v: int): int
  {
    Step(if v == 0 then AUTO_SEED else v)
  }

  /** The step differs from the product by a multiple of the prime, for every seed. */
  lemma {:induction false} StepIsCongruent(v: int) returns (k: int)
    ensures Step(v) == MAGIC_A * v + k * MERSENNE_PRIME
  {
    var q := CDiv(v, MAGIC_QUOTIENT);
    var x := MAGIC_A * CMod(v, MAGIC_QUOTIENT) - MAGIC_REMAINDER * q;
    k := if x <= 0 then 1 - q else 0 - q;
  }

  /** No multiple of the multiplier in the cycle is a multiple of the prime. */
  lemma {:induction false} NoZeroProduct(d: int, k: int)
    requires MAGIC_A * d == k * MERSENNE_PRIME && -MERSENNE_PRIME < d < MERSENNE_PRIME
    ensures d == 0
  {
    // INVERSE_A * MAGIC_A == 1 + 11017 * MERSENNE_PRIME
    var t := INVERSE_A * k - 11017 * d;
    assert d == t * MERSENNE_PRIME;
  }

  lemma {:induction false} Parts(v: int)
    requires InCycle(v)
    ensures 0 <= CMod(v, MAGIC_QUOTIENT) < MAGIC_QUOTIENT && 0 <= CDiv(v, MAGIC_QUOTIENT) <= MAGIC_A
    ensures v == CDiv(v, MAGIC_QUOTIENT) * MAGIC_QUOTIENT + CMod(v, MAGIC_QUOTIENT)
  {
  }

  /** On the cycle the step is multiplication modulo the prime; it stays on the cycle, and everything
      computed on the way fits a signed 32-bit word. */
  lemma {:induction false} StepIsProduct(v: int)
    requires InCycle(v)
    ensures Step(v) == (MAGIC_A * v) % MERSENNE_PRIME && InCycle(Step(v))
    ensures Word32(MAGIC_A * CMod(v, MAGIC_QUOTIENT)) && Word32(MAGIC_REMAINDER * CDiv(v, MAGIC_QUOTIENT))
    ensures Word32(MAGIC_A * CMod(v, MAGIC_QUOTIENT) - MAGIC_REMAINDER * CDiv(v, MAGIC_QUOTIENT))
  {
    hide CMod, CDiv;
    Parts(v);
    var k := StepIsCongruent(v);
    if MAGIC_A * CMod(v, MAGIC_QUOTIENT) == MAGIC_REMAINDER * CDiv(v, MAGIC_QUOTIENT) {
      NoZeroProduct(v, CDiv(v, MAGIC_QUOTIENT));
    }
    Remainder(Step(v), 0 - k);
  }

  /** The step back. */
  function StepBack(x: int): int
  {
    (INVERSE_A * x) % MERSENNE_PRIME
  }

  lemma {:induction false} StepInjective(v: int, w: int)
    requires InCycle(v) && InCycle(w) && Step(v) == Step(w)
    ensures v == w
  {
    var k := StepIsCongruent(v);
    var l := StepIsCongruent(w);
    NoZeroProduct(v - w, l - k);
  }

  lemma {:induction false} StepOnto(x: int)
    requires InCycle(x)
    ensures InCycle(StepBack(x)) && Step(StepBack(x)) == x
  {
    var v := StepBack(x);
    var q := (INVERSE_A * x) / MERSENNE_PRIME;
    assert INVERSE_A * x == q * MERSENNE_PRIME + v;
    assert MAGIC_A * v == x + (11017 * x - MAGIC_A * q) * MERSENNE_PRIME;
    if v == 0 {
      BelowPrime(x, MAGIC_A * q - 11017 * x);
    }
    StepIsProduct(v);
    Remainder(x, 11017 * x - MAGIC_A * q);
  }

  lemma {:induction false} BelowPrime(x: int, t: int)
    requires x == t * MERSENNE_PRIME
    ensures !InCycle(x)
  {
  }

  lemma {:induction false} Remainder(x: int, t: int)
    requires 0 <= x < MERSENNE_PRIME
    ensures (x + t * MERSENNE_PRIME) % MERSENNE_PRIME == x
  {
  }

  /** The step is a bijection on the cycle. */
  lemma {:induction false} StepIsBijection()
    ensures forall v, w :: InCycle(v) && InCycle(w) && Step(v) == Step(w) ==> v == w
    ensures forall x :: InCycle(x) ==> InCycle(StepBack(x)) && Step(StepBack(x)) == x && StepBack(Step(x)) == x
  {
    forall v, w | InCycle(v) && InCycle(w) && Step(v) == Step(w) ensures v == w {
      StepInjective(v, w);
    }
    forall x | InCycle(x) ensures InCycle(StepBack(x)) && Step(StepBack(x)) == x && StepBack(Step(x)) == x {
      StepOnto(x);
      StepIsProduct(x);
      StepOnto(Step(x));
      StepInjective(StepBack(Step(x)), x);
    }
  }

  /** The constant seed lies outside the cycle, and one step brings it in. */
  lemma {:induction false} AutoSeedEnters()
    ensures !InCycle(AUTO_SEED) && Drawn(0) == Step(AUTO_SEED) == 1624420127 && InCycle(Drawn(0))
  {
  }

  /** The prime leads to itself, and so does its negative in one step: a generator seeded with either
      draws the prime for ever. */
  lemma {:induction false} PrimeIsStuck(n: nat)
    ensures After(MERSENNE_PRIME, n) == MERSENNE_PRIME && After(0 - MERSENNE_PRIME, n + 1) == MERSENNE_PRIME
  {
    assert Drawn(MERSENNE_PRIME) == MERSENNE_PRIME && Drawn(0 - MERSENNE_PRIME) == MERSENNE_PRIME;
    if n > 0 { PrimeIsStuck(n - 1); }
  }

  /** The product is a multiple of the prime only for multiples of the prime. */
  lemma {:induction false} OnlyPrimeFactors(v: int, k: int)
    requires MAGIC_A * v == k * MERSENNE_PRIME
    ensures v % MERSENNE_PRIME == 0
  {
    var d, q := v % MERSENNE_PRIME, v / MERSENNE_PRIME;
    assert v == q * MERSENNE_PRIME + d;
    NoZeroProduct(d, k - MAGIC_A * q);
  }

  /** The step of any word that can be stored is between 1 and the prime. */
  lemma {:induction false} StepInWord(v: int)
    requires Word32(v)
    ensures 1 <= Step(v) <= MERSENNE_PRIME
  {
    if v >= 0 {
      assert CDiv(v, MAGIC_QUOTIENT) <= MAGIC_A && 0 <= CMod(v, MAGIC_QUOTIENT) < MAGIC_QUOTIENT;
    } else {
      assert CDiv(v, MAGIC_QUOTIENT) >= -MAGIC_A && -MAGIC_QUOTIENT < CMod(v, MAGIC_QUOTIENT) <= 0;
    }
  }

  /** Which seeds work: the first draw enters the cycle unless the seed is the prime or its negative. */
  lemma {:induction false} EntersExactlyWhen(v: int)
    requires Word32(v)
    ensures InCycle(Drawn(v)) <==> v != MERSENNE_PRIME && v != 0 - MERSENNE_PRIME
  {
    if v == 0 {
      AutoSeedEnters();
    } else {
      StepInWord(v);
      var k := StepIsCongruent(v);
      if Step(v) == MERSENNE_PRIME {
        OnlyPrimeFactors(v, 1 - k);
        assert v == v / MERSENNE_PRIME * MERSENNE_PRIME;
      }
    }
  }

  /** From every other seed each draw is the first one multiplied by a power of the multiplier; from
      those two it is the prime. */
  lemma {:induction false} EverySeed(v: int, n: nat)
    requires Word32(v)
    ensures After(v, n + 1) ==
      if v == MERSENNE_PRIME || v == 0 - MERSENNE_PRIME then MERSENNE_PRIME
      else (Power(MAGIC_A, n) * Drawn(v)) % MERSENNE_PRIME
    ensures InCycle(After(v, n + 1)) <==> v != MERSENNE_PRIME && v != 0 - MERSENNE_PRIME
  {
    EntersExactlyWhen(v);
    AfterShift(v, n);
    if InCycle(Drawn(v)) {
      RunStaysOnCycle(Drawn(v), n);
    } else {
      PrimeIsStuck(n + 1);
      PrimeIsStuck(n);
    }
  }

  function Power(a: int, n: nat): int
  {
    if n == 0 then 1 else a * Power(a, n - 1)
  }

  /** The value after n draws. */
  function After(v: int, n: nat): int
  {
    if n == 0 then v else Drawn(After(v, n - 1))
  }

  lemma {:induction false} ProductRemainder(p: int, v: int)
    ensures (MAGIC_A * ((p * v) % MERSENNE_PRIME)) % MERSENNE_PRIME == (MAGIC_A * p * v) % MERSENNE_PRIME
  {
    var r, q := (p * v) % MERSENNE_PRIME, (p * v) / MERSENNE_PRIME;
    assert p * v == q * MERSENNE_PRIME + r;
    assert MAGIC_A * p * v == MAGIC_A * (p * v);
    ShiftedRemainder(MAGIC_A * r, MAGIC_A * q);
  }

  lemma {:induction false} ShiftedRemainder(x: int, t: int)
    ensures (x + t * MERSENNE_PRIME) % MERSENNE_PRIME == x % MERSENNE_PRIME
  {
  }

  /** From the cycle the generator never leaves it, so it never meets 0 and never seeds itself again;
      n draws multiply by the n-th power of the multiplier. */
  lemma {:induction false} RunStaysOnCycle(v: int, n: nat)
    requires InCycle(v)
    ensures InCycle(After(v, n)) && After(v, n) == (Power(MAGIC_A, n) * v) % MERSENNE_PRIME
  {
    if n > 0 {
      RunStaysOnCycle(v, n - 1);
      StepIsProduct(After(v, n - 1));
      ProductRemainder(Power(MAGIC_A, n - 1), v);
    }
  }

  lemma {:induction false} AfterShift(v: int, n: nat)
    ensures After(v, n + 1) == After(Drawn(v), n)
  {
    if n > 0 { AfterShift(v, n - 1); }
  }

  /** An unseeded generator seeds itself once: every later value is on the cycle. */
  lemma {:induction false} UnseededRun(n: nat)
    ensures InCycle(After(0, n + 1))
  {
    AutoSeedEnters();
    AfterShift(0, n);
    RunStaysOnCycle(Drawn(0), n);
  }

  function Abs(x: int): nat { if x < 0 then 0 - x else x }

  /** A value that does not fit 32 bits comes closer to 0. */
  lemma {:induction false} StepShrinks(v: int)
    requires !Word32(v)
    ensures Abs(Step(v)) < Abs(v)
  {
    var q, r := CDiv(v, MAGIC_QUOTIENT), CMod(v, MAGIC_QUOTIENT);
    assert if v >= 0 then 0 <= r < MAGIC_QUOTIENT && q >= 0 else -MAGIC_QUOTIENT < r <= 0 && q <= 0;
    assert Abs(q) * MAGIC_QUOTIENT <= Abs(v);
  }

  lemma {:induction false} StepKeepsFactor(v: int)
    requires v % MERSENNE_PRIME != 0
    ensures Step(v) % MERSENNE_PRIME != 0
  {
    var k := StepIsCongruent(v);
    if Step(v) % MERSENNE_PRIME == 0 {
      OnlyPrimeFactors(v, Step(v) / MERSENNE_PRIME - k);
    }
  }

  /** Seeds of any width settle: after some draws the generator is on the cycle, or else stuck on the
      prime, which happens only to multiples of the prime. */
  lemma {:induction false} Settles(v: int) returns (n: nat)
    decreases Abs(v)
    ensures InCycle(After(v, n)) || After(v, n) == MERSENNE_PRIME
    ensures v % MERSENNE_PRIME != 0 ==> InCycle(After(v, n))
  {
    if Word32(v) {
      n := 1;
      EverySeed(v, 0);
    } else {
      StepShrinks(v);
      if v % MERSENNE_PRIME != 0 { StepKeepsFactor(v); }
      n := Settles(Step(v));
      AfterShift(v, n);
      n := n + 1;
    }
  }

  class Generator {
    var value: int

    constructor ()
      ensures value == 0
    {
      value := 0;
    }

    /** auto_seed. */
    method AutoSeed()
      modifies this
      ensures value == AUTO_SEED
    {
      value := AUTO_SEED;
    }

    /** _dmalloc_srand. */
    method Seed(seed: int)
      modifies this
      ensures value == seed
    {
      value := seed;
    }

    /** _dmalloc_rand. */
    method Draw() returns (r: int)
      modifies this
      ensures r == value == Drawn(old(value))
      ensures InCycle(old(value)) ==> value == (MAGIC_A * old(value)) % MERSENNE_PRIME
      ensures Word32(old(value)) ==>
        (InCycle(value) <==> old(value) != MERSENNE_PRIME && old(value) != 0 - MERSENNE_PRIME)
    {
      if InCycle(value) { StepIsProduct(value); }
      if Word32(value) { EntersExactlyWhen(value); }
      if value == 0 {
        AutoSeed();
      }
      value := MAGIC_A * CMod(value, MAGIC_QUOTIENT) - MAGIC_REMAINDER * CDiv(value, MAGIC_QUOTIENT);
      if value <= 0 {
        value := value + MERSENNE_PRIME;
      }
      r := value;
    }
  }
}
