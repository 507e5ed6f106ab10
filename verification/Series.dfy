/** Sums over series of JavaScript numbers, taken as reals. */
module Series {

  /** The sum from the left. */
  function Sum(x: seq<real>): real {
    if x == [] then 0.0 else Sum(x[..|x| - 1]) + x[|x| - 1]
  }

  lemma {:induction false} SumFirst(x: seq<real>)
    requires x != []
    ensures Sum(x) == x[0] + Sum(x[1..])
  {
    if |x| > 1 {
      var n := |x| - 1;
      SumFirst(x[..n]);
      assert x[..n][1..] == x[1..][..n - 1];
    }
  }

  lemma {:induction false} SumNonNegative(x: seq<real>)
    requires forall i :: 0 <= i < |x| ==> x[i] >= 0.0
    ensures Sum(x) >= 0.0
  {
    if x != [] {
      SumNonNegative(x[..|x| - 1]);
    }
  }
}
