/** When the next refresh is due: fixed interval or failure ladder, jittered by at most a tenth, clamped. */
module RefreshDelay {
  const REFRESH_INTERVAL_MS: int := 30_000
  const MIN_REFRESH_INTERVAL_MS: int := 15_000
  const MAX_REFRESH_INTERVAL_MS: int := 300_000
  const BACKOFF_LADDER_MS: seq<int> := [15_000, 30_000, 60_000, 120_000, 300_000]
  const MODULUS: int := 2_147_483_647

  function Min(a: int, b: int): int { if a <= b then a else b }
  function Max(a: int, b: int): int { if a >= b then a else b }

  /** Rounds n / d, halves upwards. */
  function RoundRatio(n: nat, d: nat): nat
    requires d > 0
  {
    (2 * n + d) / (2 * d)
  }

  function Bound(base: int): int {
    base / 10
  }

  /** The jitter step, in exact arithmetic. */
  function ApplyJitter(base: int, attemptCount: nat): int {
    if Bound(base) <= 0 then base
    else base + RoundRatio(attemptCount * 48271 % MODULUS * Bound(base) * 2, MODULUS) - Bound(base)
  }

  function Clamp(value: int): int {
    Min(MAX_REFRESH_INTERVAL_MS, Max(MIN_REFRESH_INTERVAL_MS, value))
  }

  function RungIndex(consecutiveFailures: nat): int {
    Min(Max(0, consecutiveFailures - 1), |BACKOFF_LADDER_MS| - 1)
  }

  function BaseDelay(backoff: bool, consecutiveFailures: nat): int {
    if backoff then BACKOFF_LADDER_MS[RungIndex(consecutiveFailures)] else REFRESH_INTERVAL_MS
  }

  function NextDelayMs(backoff: bool, consecutiveFailures: nat, attemptCount: nat): int {
    Clamp(ApplyJitter(BaseDelay(backoff, consecutiveFailures), attemptCount))
  }

  lemma MulOrder(a: int, b: int, d: nat)
    requires a <= b
    ensures a * d <= b * d
  {}

  lemma QuotientBound(x: nat, d: nat, k: nat)
    requires d > 0 && x < (k + 1) * d
    ensures x / d <= k
  {
    var q := x / d;
    assert q * d <= x;
    if k < q { MulOrder(k + 1, q, d); }
  }

  lemma RoundRatioBound(m: nat, bound: nat)
    requires m < MODULUS
    ensures RoundRatio(m * bound * 2, MODULUS) <= bound * 2
  {
    var k := bound * 2;
    assert m * bound * 2 == m * k;
    assert m * k <= MODULUS * k;
    QuotientBound(2 * (m * k) + MODULUS, 2 * MODULUS, k);
  }

  /** The jitter never moves a delay by more than a tenth of its base. */
  lemma {:induction false} JitterWithinTenth(base: nat, attemptCount: nat)
    ensures base - Bound(base) <= ApplyJitter(base, attemptCount) <= base + Bound(base)
  {
    RoundRatioBound(attemptCount * 48271 % MODULUS, Bound(base));
  }

  /** Both ends are reached: the jitter spreads the attempts over the whole tenth. */
  lemma JitterReachesBothEnds()
    ensures ApplyJitter(300_000, 0) == 270_000
    ensures ApplyJitter(300_000, 40_000) == 323_947
    ensures ApplyJitter(300_000, 44_488) == 330_000
  {}

  /** Whatever the jitter, a longer failure run waits strictly longer, up to the last rung. */
  lemma {:induction false} BackoffGrows(f: nat, g: nat, attemptsF: nat, attemptsG: nat)
    requires 1 <= f < g <= |BACKOFF_LADDER_MS|
    ensures MIN_REFRESH_INTERVAL_MS <= NextDelayMs(true, f, attemptsF) < NextDelayMs(true, g, attemptsG) <= MAX_REFRESH_INTERVAL_MS
  {
    JitterWithinTenth(BaseDelay(true, f), attemptsF);
    JitterWithinTenth(BaseDelay(true, g), attemptsG);
  }

  // ----- the same in floating point

  /** Multiplication and division as the runtime performs them, and its constant 0.1. */
  datatype Floats = Floats(mul: (real, real) -> real, div: (real, real) -> real, tenth: real)

  predicate Exact(x: real) {
    0.0 <= x <= 9_007_199_254_740_992.0 && x == x.Floor as real
  }

  /**
   What IEEE 754 doubles satisfy in every rounding mode, for operands that are not negative: rounding keeps
   order, is exact where the result is an integer below two to the 53rd, and multiplying by 0.1 is dividing by ten
   up to one part in a billion.
   */
  ghost predicate Ieee(f: Floats) {
    MulKeepsOrder(f) && DivKeepsOrder(f) && ExactOnIntegers(f)
  }

  ghost predicate MulKeepsOrder(f: Floats) {
    forall x, y, z :: 0.0 <= x <= y && 0.0 <= z ==> f.mul(x, z) <= f.mul(y, z)
  }

  ghost predicate DivKeepsOrder(f: Floats) {
    forall x, y, z :: 0.0 <= x <= y && 0.0 < z ==> f.div(x, z) <= f.div(y, z)
  }

  ghost predicate ExactOnIntegers(f: Floats) {
    && (forall z :: Exact(z) ==> f.mul(0.0, z) == 0.0 && f.mul(1.0, z) == z && f.mul(z, 2.0) == z + z)
    && (forall z :: Exact(z) && 0.0 < z ==> f.div(0.0, z) == 0.0 && f.div(z, z) == 1.0)
    && (forall z :: Exact(z) ==> 1_000_000_000.0 * f.mul(z, f.tenth) <= 100_000_000.1 * z)
  }

  /** The draw between 0 and 1; the seed is the integer that the product and remainder of the source give. */
  function PseudoRandom(f: Floats, seed: nat): real {
    f.div((seed % MODULUS) as real, MODULUS as real)
  }

  function OffsetOf(f: Floats, pseudoRandom: real, bound: int): int {
    (f.mul(f.mul(pseudoRandom, bound as real), 2.0) + 0.5).Floor - bound
  }

  /** The jitter step with every operation rounded, for whatever seed the attempt counter gives. */
  function ApplyJitterRounded(f: Floats, base: nat, seed: nat): int {
    var bound := f.mul(base as real, f.tenth).Floor;
    if bound <= 0 then base else base + OffsetOf(f, PseudoRandom(f, seed), bound)
  }

  lemma DrawBetween(f: Floats, seed: nat)
    requires Ieee(f)
    ensures 0.0 <= PseudoRandom(f, seed) <= 1.0
  {
    assert Exact(MODULUS as real);
  }

  lemma OffsetWithin(f: Floats, p: real, bound: int)
    requires Ieee(f) && 0.0 <= p <= 1.0 && 0 <= bound <= 1_000_000
    ensures -bound <= OffsetOf(f, p, bound) <= bound
  {
    var b := bound as real;
    assert Exact(b) && Exact(0.0);
    var scaled := f.mul(p, b);
    assert f.mul(0.0, b) <= scaled <= f.mul(1.0, b);
    assert f.mul(0.0, 2.0) <= f.mul(scaled, 2.0) <= f.mul(b, 2.0);
  }

  lemma BoundBelowTenth(f: Floats, base: nat)
    requires Ieee(f) && base % 10 == 0 && base <= 1_000_000
    ensures f.mul(base as real, f.tenth).Floor <= base / 10
  {
    assert Exact(base as real);
    assert base == 10 * (base / 10);
  }

  /** Rounding included, the jitter never moves a delay by more than a tenth of its base. */
  lemma RoundedJitterWithinTenth(f: Floats, base: nat, seed: nat)
    requires Ieee(f) && base % 10 == 0 && base <= 1_000_000
    ensures base - base / 10 <= ApplyJitterRounded(f, base, seed) <= base + base / 10
  {
    BoundBelowTenth(f, base);
    var bound := f.mul(base as real, f.tenth).Floor;
    if bound > 0 {
      DrawBetween(f, seed);
      OffsetWithin(f, PseudoRandom(f, seed), bound);
    }
  }

  /** Rounding included, a longer failure run waits strictly longer, up to the last rung. */
  lemma RoundedBackoffGrows(fl: Floats, f: nat, g: nat, seedF: nat, seedG: nat)
    requires Ieee(fl) && 1 <= f < g <= |BACKOFF_LADDER_MS|
    ensures MIN_REFRESH_INTERVAL_MS <= Clamp(ApplyJitterRounded(fl, BaseDelay(true, f), seedF))
    ensures Clamp(ApplyJitterRounded(fl, BaseDelay(true, f), seedF)) < Clamp(ApplyJitterRounded(fl, BaseDelay(true, g), seedG))
    ensures Clamp(ApplyJitterRounded(fl, BaseDelay(true, g), seedG)) <= MAX_REFRESH_INTERVAL_MS
  {
    RoundedJitterWithinTenth(fl, BaseDelay(true, f), seedF);
    RoundedJitterWithinTenth(fl, BaseDelay(true, g), seedG);
  }

  function Times(x: real, y: real): real { x * y }
  function Over(x: real, y: real): real { if y == 0.0 then 0.0 else x / y }

  lemma ProductOrder(x: real, y: real, z: real)
    requires x <= y && 0.0 <= z
    ensures Times(x, z) <= Times(y, z)
  {}

  lemma QuotientOrder(x: real, y: real, z: real)
    requires x <= y && 0.0 < z
    ensures Over(x, z) <= Over(y, z)
  {}

  lemma TimesKeepsOrder(f: Floats)
    requires f.mul == Times
    ensures MulKeepsOrder(f)
  {
    forall x, y, z | 0.0 <= x <= y && 0.0 <= z ensures f.mul(x, z) <= f.mul(y, z) { ProductOrder(x, y, z); }
  }

  lemma OverKeepsOrder(f: Floats)
    requires f.div == Over
    ensures DivKeepsOrder(f)
  {
    forall x, y, z | 0.0 <= x <= y && 0.0 < z ensures f.div(x, z) <= f.div(y, z) { QuotientOrder(x, y, z); }
  }

  lemma OverSelf(z: real)
    requires 0.0 < z
    ensures Over(0.0, z) == 0.0 && Over(z, z) == 1.0
  {
    var zero := 0.0 / z;
    assert zero * z == 0.0;
  }

  lemma ExactOnes(f: Floats)
    requires f == Floats(Times, Over, 0.1)
    ensures ExactOnIntegers(f)
  {
    forall z | Exact(z) && 0.0 < z ensures f.div(0.0, z) == 0.0 && f.div(z, z) == 1.0 { OverSelf(z); }
  }

  /** Exact arithmetic is one of the arithmetics meant. */
  lemma ExactIsIeee() returns (f: Floats)
    ensures f == Floats(Times, Over, 0.1) && Ieee(f)
  {
    f := Floats(Times, Over, 0.1);
    TimesKeepsOrder(f);
    OverKeepsOrder(f);
    ExactOnes(f);
  }
}
