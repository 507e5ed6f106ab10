/** Arithmetic on reals that the proofs use one step at a time. */
module Reals {

  function MinReal(a: real, b: real): real {
    if a < b then a else b
  }

  function MaxReal(a: real, b: real): real {
    if a < b then b else a
  }

  lemma PositiveProduct(a: real, b: real)
    requires a > 0.0 && b > 0.0
    ensures a * b > 0.0
  {
  }

  lemma NonNegativeProduct(a: real, b: real)
    requires a >= 0.0 && b >= 0.0
    ensures a * b >= 0.0
  {
  }

  lemma PositiveQuotient(a: real, d: real)
    requires a > 0.0 && d > 0.0
    ensures a / d > 0.0
  {
  }

  lemma NonNegativeQuotient(a: real, d: real)
    requires a >= 0.0 && d > 0.0
    ensures a / d >= 0.0
  {
  }

  lemma MulDifference(a: real, b: real, c: real)
    ensures (a - b) * c == a * c - b * c
  {
  }

  lemma MulMonotone(a: real, b: real, c: real)
    requires a <= b && c >= 0.0
    ensures a * c <= b * c
  {
    NonNegativeProduct(b - a, c);
    MulDifference(b, a, c);
  }

  lemma MulStrict(a: real, b: real, c: real)
    requires a < b && c > 0.0
    ensures a * c < b * c
  {
    PositiveProduct(b - a, c);
    MulDifference(b, a, c);
  }

  /** A product that proofs can carry around without looking inside it. */
  function Times(a: real, b: real): real {
    a * b
  }

  lemma TimesMonotone(a: real, b: real, c: real)
    requires a <= b && c >= 0.0
    ensures Times(a, c) <= Times(b, c)
  {
    MulMonotone(a, b, c);
  }

  lemma TimesStrict(a: real, b: real, c: real)
    requires a < b && c > 0.0
    ensures Times(a, c) < Times(b, c)
  {
    MulStrict(a, b, c);
  }

  /** Monotone in what a share leaves over. */
  lemma RestMonotone(a: real, b: real, share: real)
    requires a <= b && share <= 1.0
    ensures a - Times(a, share) <= b - Times(b, share)
  {
    NonNegativeProduct(b - a, 1.0 - share);
    assert (b - a) * (1.0 - share) == (b - b * share) - (a - a * share);
  }

  /** A share of something is between nothing and all of it. */
  lemma FractionOf(share: real, whole: real)
    requires 0.0 <= share <= 1.0 && whole >= 0.0
    ensures 0.0 <= share * whole <= whole
  {
    NonNegativeProduct(share, whole);
    MulMonotone(share, 1.0, whole);
  }

  /** Only the whole of something is all of it. */
  lemma WholeShare(share: real, whole: real)
    requires whole > 0.0
    ensures share * whole == whole <==> share == 1.0
  {
    assert (share - 1.0) * whole == share * whole - whole;
    if share > 1.0 {
      PositiveProduct(share - 1.0, whole);
    } else if share < 1.0 {
      PositiveProduct(1.0 - share, whole);
    }
  }

  lemma QuotientIsUnit(top: real, bottom: real)
    requires 0.0 <= top <= bottom && bottom > 0.0
    ensures 0.0 <= top / bottom <= 1.0
  {
    var q := top / bottom;
    assert q * bottom == top;
    if q < 0.0 {
      MulStrict(q, 0.0, bottom);
    } else if q > 1.0 {
      MulStrict(1.0, q, bottom);
    }
  }
}
