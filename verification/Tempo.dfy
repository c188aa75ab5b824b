/** Chains of tempo factors (`atempo_filter`). */
module Tempo {
  import opened Sequences

  function Product(factors: seq<real>): real {
    if factors == [] then 1.0 else Product(Init(factors)) * Last(factors)
  }

  ghost predicate InRange(factors: seq<real>) {
    forall i :: 0 <= i < |factors| ==> 0.5 <= factors[i] <= 2.0
  }

  function Pow2(n: nat): real { if n == 0 then 1.0 else 2.0 * Pow2(n - 1) }

  lemma {:induction false} Pow2Positive(n: nat)
    ensures Pow2(n) >= 1.0
  {
    if n > 0 { Pow2Positive(n - 1); }
  }

  lemma {:induction false} Pow2Monotone(m: nat, n: nat)
    requires m <= n
    ensures Pow2(m) <= Pow2(n)
    decreases n
  {
    Pow2Positive(n);
    if m < n {
      Pow2Monotone(m, n - 1);
      Pow2Positive(n - 1);
    }
  }

  /** What a chain is good for: its factors are all within the filter's range and
      multiply to the wanted tempo. */
  ghost predicate Chain(factors: seq<real>, tempo: real) {
    factors != [] && InRange(factors) && Product(factors) == tempo
  }

  /** The tempo lies between the inverse of the bound and the bound. */
  ghost predicate Reaches(bound: real, tempo: real) {
    0.0 < tempo <= bound && 1.0 <= tempo * bound
  }

  /** n factors reach at most 2^n, and at least its inverse. */
  lemma {:induction false} ProductRange(factors: seq<real>)
    requires InRange(factors)
    ensures Reaches(Pow2(|factors|), Product(factors))
  {
    if factors != [] {
      var front, f := Init(factors), Last(factors);
      assert f == factors[|factors| - 1];
      ProductRange(front);
      var p, q := Product(front), Pow2(|front|);
      ProductStep(p, q, f);
    }
  }

  lemma ProductStep(p: real, q: real, f: real)
    requires Reaches(q, p) && 0.5 <= f <= 2.0
    ensures Reaches(2.0 * q, p * f)
  {
    assert p * f <= p * 2.0;
    assert p * f >= p * 0.5;
    var r := p * f;
    assert r * (2.0 * q) >= (p * 0.5) * (2.0 * q) by {
      assert (r - p * 0.5) * (2.0 * q) >= 0.0;
    }
    assert (p * 0.5) * (2.0 * q) == p * q;
  }

  lemma ProductSnoc(factors: seq<real>, f: real)
    ensures Product(factors + [f]) == Product(factors) * f
  {
    assert Init(factors + [f]) == factors;
  }

  /** No chain with one factor less can reach the tempo. */
  ghost predicate NeedsAll(n: nat, tempo: real) {
    n > 1 ==> !Reaches(Pow2(n - 1), tempo)
  }

  /** The factors so far, with product p, and the rest of the tempo. */
  ghost predicate Splits(p: real, remaining: real, tempo: real) {
    p * remaining == tempo
  }

  /** A tempo below the range doubled so far is still below 1. */
  ghost predicate Doubled(remaining: real, tempo: real, q: real) {
    remaining == tempo * q
  }

  lemma Start(tempo: real)
    ensures Product([]) == 1.0 && InRange([]) && Pow2(0) == 1.0
    ensures Splits(1.0, tempo, tempo) && Doubled(tempo, tempo, 1.0)
  {
  }

  lemma OneFactorMore(factors: seq<real>, f: real)
    requires InRange(factors) && 0.5 <= f <= 2.0
    ensures InRange(factors + [f])
    ensures Product(factors + [f]) == Product(factors) * f
    ensures Pow2(|factors| + 1) == 2.0 * Pow2(|factors|)
  {
    hide Product;
    ProductSnoc(factors, f);
  }

  lemma SplitsAssociate(p: real, f: real, next: real, whole: real, remaining: real, tempo: real)
    requires Splits(p, whole, tempo) && whole == f * remaining && next == p * f
    ensures Splits(next, remaining, tempo)
  {
    assert p * f * remaining == p * (f * remaining);
  }

  /** The loops of `atempo_filter`: halve a fast tempo, double a slow one, keep the rest.
      All factors but the last are the end of the range. */
  method AtempoFilter(tempo: real) returns (factors: seq<real>)
    requires tempo > 0.0
    ensures Chain(factors, tempo) && NeedsAll(|factors|, tempo)
    ensures forall i :: 0 <= i < |factors| - 1 ==> factors[i] == if tempo > 2.0 then 2.0 else 0.5
  {
    hide Product, Pow2, InRange, Splits, Doubled, Reaches;
    Start(tempo);
    if 0.5 <= tempo <= 2.0 {
      Finish([], tempo, tempo);
      assert [] + [tempo] == [tempo];
      return [tempo];
    }
    factors := [];
    var remaining := tempo;
    while remaining > 2.0
      invariant remaining > 0.0 && InRange(factors) && Splits(Product(factors), remaining, tempo)
      invariant Product(factors) == Pow2(|factors|)
      invariant factors == [] ==> remaining == tempo
      invariant factors != [] ==> remaining > 1.0 && tempo > 2.0
      invariant forall i :: 0 <= i < |factors| ==> factors[i] == 2.0
      decreases remaining.Floor
    {
      HalveFast(remaining);
      OneFactorMore(factors, 2.0);
      SplitsAssociate(Product(factors), 2.0, Product(factors + [2.0]), remaining, remaining / 2.0, tempo);
      factors := factors + [2.0];
      remaining := remaining / 2.0;
    }
    FastNeedsAll(factors, remaining, tempo);
    while remaining < 0.5
      invariant 0.0 < remaining <= 2.0 && InRange(factors) && Splits(Product(factors), remaining, tempo)
      invariant tempo > 2.0 ==> remaining > 1.0 && NeedsAll(|factors| + 1, tempo)
      invariant forall i :: 0 <= i < |factors| ==> factors[i] == if tempo > 2.0 then 2.0 else 0.5
      invariant tempo <= 2.0 ==> Doubled(remaining, tempo, Pow2(|factors|)) && (factors == [] || remaining < 1.0)
      decreases (1.0 / remaining).Floor
    {
      assert tempo <= 2.0;
      DoubleSlow(remaining, tempo, Pow2(|factors|));
      OneFactorMore(factors, 0.5);
      SplitsAssociate(Product(factors), 0.5, Product(factors + [0.5]), remaining, remaining / 0.5, tempo);
      factors := factors + [0.5];
      remaining := remaining / 0.5;
    }
    if tempo <= 2.0 { SlowNeedsAll(|factors|, remaining, tempo); }
    Finish(factors, remaining, tempo);
    factors := factors + [remaining];
  }

  lemma Finish(factors: seq<real>, remaining: real, tempo: real)
    requires InRange(factors) && 0.5 <= remaining <= 2.0 && Splits(Product(factors), remaining, tempo)
    ensures Chain(factors + [remaining], tempo)
  {
    ProductSnoc(factors, remaining);
  }

  lemma HalveFast(r: real)
    requires r > 2.0
    ensures 2.0 * (r / 2.0) == r && 0 <= (r / 2.0).Floor < r.Floor
  {
  }

  lemma FastNeedsAll(factors: seq<real>, remaining: real, tempo: real)
    requires Splits(Product(factors), remaining, tempo) && Product(factors) == Pow2(|factors|)
    requires factors != [] ==> remaining > 1.0
    ensures NeedsAll(|factors| + 1, tempo)
    ensures factors == [] ==> Doubled(tempo, tempo, Pow2(|factors|))
  {
    Pow2Positive(|factors|);
    if factors != [] { TooFast(Pow2(|factors|), remaining, tempo); }
  }

  lemma TooFast(q: real, remaining: real, tempo: real)
    requires Splits(q, remaining, tempo) && q >= 1.0 && remaining > 1.0
    ensures !Reaches(q, tempo)
  {
    assert q * (remaining - 1.0) > 0.0;
  }

  lemma SlowNeedsAll(n: nat, remaining: real, tempo: real)
    requires Doubled(remaining, tempo, Pow2(n)) && (n == 0 || remaining < 1.0)
    ensures NeedsAll(n + 1, tempo)
  {
    NotReached(Pow2(n), remaining, tempo);
  }

  lemma NotReached(q: real, remaining: real, tempo: real)
    requires Doubled(remaining, tempo, q)
    ensures remaining < 1.0 ==> !Reaches(q, tempo)
  {
  }

  lemma DoubleSlow(r: real, tempo: real, q: real)
    requires 0.0 < r < 0.5 && Doubled(r, tempo, q)
    ensures 0.5 * (r / 0.5) == r && 0.0 < r / 0.5 < 1.0
    ensures Doubled(r / 0.5, tempo, 2.0 * q)
    ensures 0 <= (1.0 / (r / 0.5)).Floor < (1.0 / r).Floor
  {
    assert tempo * (2.0 * q) == 2.0 * (tempo * q);
    var x := 1.0 / r;
    assert x * r == 1.0;
    assert x <= 2.0 ==> x * r <= 2.0 * r;
    var y := 1.0 / (2.0 * r);
    assert y * (2.0 * r) == 1.0;
    assert (y - x / 2.0) * r == 0.0;
    assert y == x / 2.0;
  }

  lemma ReachesMore(a: real, b: real, tempo: real)
    requires Reaches(a, tempo) && a <= b
    ensures Reaches(b, tempo)
  {
    assert tempo * (b - a) >= 0.0;
  }

  /** No shorter chain exists: any factors in range that multiply to the tempo are at
      least as many as the filter produces. */
  lemma FewestFactors(n: nat, other: seq<real>, tempo: real)
    requires NeedsAll(n, tempo) && Chain(other, tempo)
    ensures n <= |other|
  {
    ProductRange(other);
    if |other| < n {
      Pow2Monotone(|other|, n - 1);
      ReachesMore(Pow2(|other|), Pow2(n - 1), tempo);
    }
  }
}
