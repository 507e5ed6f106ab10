/** Portfolio performance, src/portfolio/portfolio.service.ts: time-weighted return against
    return on investment. JavaScript numbers are reals. */
module Portfolio {
  function Roi(initial: real, final: real): real {
    if initial == 0.0 then 0.0 else (final - initial) / initial * 100.0
  }

  /** The product of the growth factors of all steps that start from a non-zero value. */
  function Growth(values: seq<real>): real {
    if |values| < 2 then 1.0
    else
      var n := |values| - 1;
      var before := Growth(values[..n]);
      if values[n - 1] == 0.0 then before
      else before * (1.0 + (values[n] - values[n - 1]) / values[n - 1])
  }

  function Twr(values: seq<real>): real {
    if |values| < 2 then 0.0 else (Growth(values) - 1.0) * 100.0
  }

  method CalculateTimeWeightedReturn(values: seq<real>) returns (result: real)
    ensures result == Twr(values)
  {
    if |values| < 2 { return 0.0; }
    var twr := 1.0;
    for i := 1 to |values|
      invariant twr == Growth(values[..i])
    {
      assert values[..i + 1][..i] == values[..i];
      if values[i - 1] != 0.0 {
        twr := twr * (1.0 + (values[i] - values[i - 1]) / values[i - 1]);
      }
    }
    assert values[..|values|] == values;
    result := (twr - 1.0) * 100.0;
  }

  // ---------- what the factors multiply up to ----------

  /** The first non-zero value, or the length. */
  function FirstNonZero(values: seq<real>): (k: nat)
    ensures k <= |values|
    ensures forall i :: 0 <= i < k ==> values[i] == 0.0
    ensures k < |values| ==> values[k] != 0.0
  {
    if values == [] then 0
    else
      var n := |values| - 1;
      var k := FirstNonZero(values[..n]);
      if k < n || values[n] != 0.0 then k else n + 1
  }

  /** Once invested, the value touches zero before the end. */
  predicate TouchesZero(values: seq<real>) {
    exists i :: FirstNonZero(values) < i < |values| - 1 && values[i] == 0.0
  }

  lemma StepFactor(a: real, b: real)
    requires a != 0.0
    ensures 1.0 + (b - a) / a == b / a
  {
    var q, r := b / a, (b - a) / a;
    assert b == q * a && b - a == r * a;
    var x := 1.0 + r - q;
    assert x * a == a + r * a - q * a == 0.0;
    Cancel(x, a);
  }

  lemma Cancel(x: real, a: real)
    requires a != 0.0 && x * a == 0.0
    ensures x == 0.0
  {
    assert x == 0.0 * (1.0 / a) by {
      assert a * (1.0 / a) == 1.0;
      assert x == x * (a * (1.0 / a)) == (x * a) * (1.0 / a);
    }
  }

  lemma Telescope(first: real, a: real, b: real)
    requires first != 0.0 && a != 0.0
    ensures (a / first) * (b / a) == b / first
  {
    var p, q := a / first, b / a;
    assert a == p * first && b == q * a;
    assert b == (p * q) * first;
  }

  lemma FirstNonZeroOfPrefix(values: seq<real>)
    requires |values| >= 1
    ensures var n := |values| - 1;
      FirstNonZero(values[..n]) == if FirstNonZero(values) <= n then FirstNonZero(values) else n
  {
  }

  /** The growth is the last value over the first non-zero one, unless a zero in between has
      wiped it out for good; without any investment it is one. */
  lemma {:induction false} GrowthTelescopes(values: seq<real>)
    ensures var k := FirstNonZero(values);
      Growth(values) == if k >= |values| - 1 then 1.0
                        else if TouchesZero(values) then 0.0
                        else values[|values| - 1] / values[k]
  {
    if |values| >= 2 {
      var n := |values| - 1;
      var past := values[..n];
      GrowthTelescopes(past);
      FirstNonZeroOfPrefix(values);
      var k := FirstNonZero(values);
      if k < n - 1 {
        if TouchesZero(past) {
          var i :| FirstNonZero(past) < i < |past| - 1 && past[i] == 0.0;
          assert values[i] == 0.0;
        } else if values[n - 1] == 0.0 {
          assert TouchesZero(values);
          ZeroOver(values[k]);
        } else {
          assert !TouchesZero(values) by {
            forall i | k < i < n
              ensures values[i] != 0.0
            {
              assert i == n - 1 || past[i] == values[i];
            }
          }
          StepFactor(values[n - 1], values[n]);
          Telescope(values[k], values[n - 1], values[n]);
        }
      } else if k == n - 1 {
        StepFactor(values[n - 1], values[n]);
      }
    }
  }

  lemma ZeroOver(d: real)
    requires d != 0.0
    ensures 0.0 / d == 0.0
  {
  }

  /** When the two returns are the same number: starting from an investment, the value never
      touches zero on the way, or ends there; starting from nothing, the first investment has
      kept its value without touching zero. */
  predicate ReturnsCoincide(values: seq<real>) {
    var k, last := FirstNonZero(values), |values| - 1;
    |values| < 2
    || (k == 0 && (!TouchesZero(values) || values[last] == 0.0))
    || (k > 0 && (k >= last || (!TouchesZero(values) && values[last] == values[k])))
  }

  /** For every non-empty series, the time-weighted return equals the return on investment of
      the first and last value exactly in those cases. */
  lemma TwrIsRoiExactly(values: seq<real>)
    requires values != []
    ensures Twr(values) == Roi(values[0], values[|values| - 1]) <==> ReturnsCoincide(values)
  {
    GrowthTelescopes(values);
    var k, last := FirstNonZero(values), |values| - 1;
    if |values| < 2 {
      RoiOfNothing(values[0]);
    } else if k == 0 {
      RoiIsGrowth(values[0], values[last]);
      QuotientZero(values[last], values[0]);
    } else if k < last {
      QuotientOne(values[last], values[k]);
    }
  }

  lemma RoiOfNothing(a: real)
    ensures Roi(a, a) == 0.0
  {
  }

  lemma RoiIsGrowth(a: real, b: real)
    requires a != 0.0
    ensures Roi(a, b) == (b / a - 1.0) * 100.0
  {
    StepFactor(a, b);
  }

  lemma QuotientZero(a: real, d: real)
    requires d != 0.0
    ensures a / d == 0.0 <==> a == 0.0
  {
    assert a == a / d * d;
  }

  lemma QuotientOne(a: real, d: real)
    requires d != 0.0
    ensures a / d == 1.0 <==> a == d
  {
    assert a == a / d * d;
  }

  /** In particular for a portfolio that was never empty before its last day. */
  lemma TwrIsRoiWhileInvested(values: seq<real>)
    requires values != []
    requires forall i :: 0 <= i < |values| - 1 ==> values[i] != 0.0
    ensures Twr(values) == Roi(values[0], values[|values| - 1])
  {
    TwrIsRoiExactly(values);
    assert !TouchesZero(values);
  }
}
