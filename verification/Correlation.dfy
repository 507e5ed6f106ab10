/** The two Pearson correlations: src/market-data/market-data.service.ts works on raw sums,
    src/market-data/market-data.utils.ts on deviations from the mean. JavaScript numbers are
    reals, and Math.sqrt is given by its result. */
module Correlation {
  import opened Basics
  import opened Reals
  import opened Series

  function Dot(x: seq<real>, y: seq<real>): real
    requires |x| == |y|
  {
    if x == [] then 0.0
    else
      var n := |x| - 1;
      Dot(x[..n], y[..n]) + x[n] * y[n]
  }

  /** r is the square root of v. */
  predicate IsRoot(r: real, v: real) {
    r >= 0.0 && r * r == v
  }

  // ---------- market-data.service.ts ----------

  function RawProduct(x: seq<real>, y: seq<real>): real
    requires |x| == |y|
  {
    |x| as real * Dot(x, y) - Sum(x) * Sum(y)
  }

  /** pearsonCorrelation of the service; its caller compares the lengths first. */
  function ServicePearson(x: seq<real>, y: seq<real>, denominator: real): real
    requires |x| == |y| && IsRoot(denominator, RawProduct(x, x) * RawProduct(y, y))
  {
    if denominator == 0.0 then 0.0 else RawProduct(x, y) / denominator
  }

  // ---------- market-data.utils.ts ----------

  /** The mean; NaN for an empty series, whose deviations are empty anyway. */
  function Mean(x: seq<real>): real {
    if x == [] then 0.0 else Sum(x) / |x| as real
  }

  function Shift(x: seq<real>, a: real): (s: seq<real>)
    ensures |s| == |x| && forall i :: 0 <= i < |x| ==> s[i] == x[i] - a
  {
    seq(|x|, i requires 0 <= i < |x| => x[i] - a)
  }

  function CentredProduct(x: seq<real>, y: seq<real>): real
    requires |x| == |y|
  {
    Dot(Shift(x, Mean(x)), Shift(y, Mean(y)))
  }

  /** pearsonCorrelation of the utilities; None is the NaN of 0 / 0. */
  function UtilsPearson(x: seq<real>, y: seq<real>, rootX: real, rootY: real): Option<real>
    requires |x| == |y| && IsRoot(rootX, CentredProduct(x, x)) && IsRoot(rootY, CentredProduct(y, y))
  {
    if rootX * rootY == 0.0 then None else Some(CentredProduct(x, y) / (rootX * rootY))
  }

  // ---------- raw and centred sums ----------

  /** sum((x - a) * (y - b)) in terms of sum(x * y), sum(x), sum(y) and the length. */
  function Shifted(d: real, sx: real, sy: real, m: real, a: real, b: real): real {
    d - b * sx - a * sy + m * (a * b)
  }

  lemma ShiftStep(d: real, sx: real, sy: real, m: real, p: real, q: real, a: real, b: real,
                  d': real, sx': real, sy': real, m': real)
    requires d' == d + p * q && sx' == sx + p && sy' == sy + q && m' == m + 1.0
    ensures Shifted(d', sx', sy', m', a, b) == Shifted(d, sx, sy, m, a, b) + (p - a) * (q - b)
  {
    assert (p - a) * (q - b) == p * q - b * p - a * q + a * b;
    assert b * (sx + p) == b * sx + b * p;
    assert a * (sy + q) == a * sy + a * q;
    assert (m + 1.0) * (a * b) == m * (a * b) + a * b;
  }

  lemma {:induction false} DotOfShifts(x: seq<real>, y: seq<real>, a: real, b: real)
    requires |x| == |y|
    ensures Dot(Shift(x, a), Shift(y, b)) == Shifted(Dot(x, y), Sum(x), Sum(y), |x| as real, a, b)
  {
    hide Dot, Sum, Shifted;
    if x == [] {
      EmptySums(x, y, a, b);
    } else {
      var n := |x| - 1;
      DotOfShifts(x[..n], y[..n], a, b);
      var sx, sy := Shift(x, a), Shift(y, b);
      assert sx[..n] == Shift(x[..n], a) && sy[..n] == Shift(y[..n], b);
      LastTerms(sx, sy);
      LastTerms(x, y);
      ShiftStep(Dot(x[..n], y[..n]), Sum(x[..n]), Sum(y[..n]), n as real, x[n], y[n], a, b,
                Dot(x, y), Sum(x), Sum(y), |x| as real);
    }
  }

  lemma EmptySums(x: seq<real>, y: seq<real>, a: real, b: real)
    requires |x| == |y| == 0
    ensures Dot(Shift(x, a), Shift(y, b)) == Shifted(Dot(x, y), Sum(x), Sum(y), 0.0, a, b)
  {
  }

  lemma LastTerms(x: seq<real>, y: seq<real>)
    requires |x| == |y| && x != []
    ensures var n := |x| - 1;
      && Dot(x, y) == Dot(x[..n], y[..n]) + x[n] * y[n]
      && Sum(x) == Sum(x[..n]) + x[n]
      && Sum(y) == Sum(y[..n]) + y[n]
  {
  }

  lemma MeanTimesLength(x: seq<real>)
    ensures |x| as real * Mean(x) == Sum(x)
  {
  }

  /** n * sum((x - mean x) * (y - mean y)) == n * sum(x * y) - sum(x) * sum(y) */
  lemma CentredIsRaw(x: seq<real>, y: seq<real>)
    requires |x| == |y|
    ensures |x| as real * CentredProduct(x, y) == RawProduct(x, y)
  {
    hide Mean, Dot, Sum;
    DotOfShifts(x, y, Mean(x), Mean(y));
    MeanTimesLength(x);
    MeanTimesLength(y);
    CentreAlgebra(|x| as real, Dot(x, y), Sum(x), Sum(y), Mean(x), Mean(y));
  }

  lemma CentreAlgebra(n: real, d: real, sx: real, sy: real, a: real, b: real)
    requires n * a == sx && n * b == sy
    ensures n * (d - b * sx - a * sy + n * (a * b)) == n * d - sx * sy
  {
    assert n * (b * sx) == (n * b) * sx == sy * sx;
    assert n * (a * sy) == (n * a) * sy == sx * sy;
    assert n * (n * (a * b)) == (n * a) * (n * b) == sx * sy;
    var t := n * (a * b);
    assert n * (d - b * sx - a * sy + t) == n * d - n * (b * sx) - n * (a * sy) + n * t;
  }

  // ---------- Cauchy-Schwarz ----------

  function Gap(u: real, v: real, p: real, q: real): real {
    (p * u - q * v) * (p * u - q * v)
  }

  /** The sum of the squares of p * x - q * y. */
  function SquaredGap(x: seq<real>, y: seq<real>, p: real, q: real): real
    requires |x| == |y|
  {
    if x == [] then 0.0
    else
      var n := |x| - 1;
      SquaredGap(x[..n], y[..n], p, q) + Gap(x[n], y[n], p, q)
  }

  /** The same, in terms of the products of the series. */
  function Form(p: real, q: real, xx: real, xy: real, yy: real): real {
    p * p * xx - 2.0 * (p * q) * xy + q * q * yy
  }

  lemma SquareNonNegative(a: real)
    ensures a * a >= 0.0
  {
    if a >= 0.0 {
      NonNegativeProduct(a, a);
    } else {
      NonNegativeProduct(-a, -a);
    }
  }

  lemma GapNonNegative(u: real, v: real, p: real, q: real)
    ensures Gap(u, v, p, q) >= 0.0
  {
    SquareNonNegative(p * u - q * v);
  }

  lemma FormGrows(p: real, q: real, xx: real, xy: real, yy: real, u: real, v: real)
    ensures Form(p, q, xx + Times(u, u), xy + Times(u, v), yy + Times(v, v)) == Form(p, q, xx, xy, yy) + Gap(u, v, p, q)
  {
  }

  lemma LastProduct(x: seq<real>, y: seq<real>)
    requires |x| == |y| && x != []
    ensures Dot(x, y) == Dot(x[..|x| - 1], y[..|x| - 1]) + Times(x[|x| - 1], y[|x| - 1])
  {
  }

  lemma NoProducts(x: seq<real>, y: seq<real>, p: real, q: real)
    requires x == y == []
    ensures Form(p, q, Dot(x, x), Dot(x, y), Dot(y, y)) == 0.0
  {
  }

  lemma {:induction false} SquaredGapExpands(x: seq<real>, y: seq<real>, p: real, q: real)
    requires |x| == |y|
    ensures SquaredGap(x, y, p, q) == Form(p, q, Dot(x, x), Dot(x, y), Dot(y, y)) >= 0.0
  {
    hide Form, Gap, Times, Dot;
    if x == [] {
      NoProducts(x, y, p, q);
    } else {
      var n := |x| - 1;
      SquaredGapExpands(x[..n], y[..n], p, q);
      LastProduct(x, x);
      LastProduct(x, y);
      LastProduct(y, y);
      FormGrows(p, q, Dot(x[..n], x[..n]), Dot(x[..n], y[..n]), Dot(y[..n], y[..n]), x[n], y[n]);
      GapNonNegative(x[n], y[n], p, q);
    }
  }

  lemma {:induction false} DotSelfNonNegative(x: seq<real>)
    ensures Dot(x, x) >= 0.0
  {
    if x != [] {
      DotSelfNonNegative(x[..|x| - 1]);
    }
  }

  lemma CauchySchwarz(x: seq<real>, y: seq<real>)
    requires |x| == |y|
    ensures Dot(x, y) * Dot(x, y) <= Dot(x, x) * Dot(y, y)
  {
    var a, s, b := Dot(x, x), Dot(x, y), Dot(y, y);
    DotSelfNonNegative(x);
    DotSelfNonNegative(y);
    if b > 0.0 {
      SquaredGapExpands(x, y, b, s);
      GapAlgebra(a, s, b);
      NonNegativeFactor(b, a * b - s * s);
    } else if s != 0.0 {
      var t := (a + 1.0) / (2.0 * s);
      NegativeGap(a, s, b, t);
      SquaredGapExpands(x, y, 1.0, t);
    }
  }

  lemma NegativeGap(a: real, s: real, b: real, t: real)
    requires b == 0.0 && s != 0.0 && t == (a + 1.0) / (2.0 * s)
    ensures Form(1.0, t, a, s, b) == -1.0
  {
    assert 2.0 * (1.0 * t) * s == t * (2.0 * s) == a + 1.0;
    assert t * t * b == 0.0;
  }

  lemma NonNegativeFactor(b: real, gap: real)
    requires b > 0.0 && b * gap >= 0.0
    ensures gap >= 0.0
  {
    if gap < 0.0 {
      PositiveProduct(b, -gap);
    }
  }

  lemma GapAlgebra(a: real, s: real, b: real)
    ensures Form(b, s, a, s, b) == b * (a * b - s * s)
  {
    assert (b * s) * s == b * (s * s);
    assert s * s * b == b * (s * s);
    assert b * b * a == b * (a * b);
  }

  // ---------- the correlations ----------

  lemma RootsScale(n: real, root: real, rootX: real, rootY: real, vx: real, vy: real)
    requires n >= 0.0 && IsRoot(rootX, vx) && IsRoot(rootY, vy) && IsRoot(root, (n * vx) * (n * vy))
    ensures root == n * (rootX * rootY)
  {
    var r := n * (rootX * rootY);
    assert r >= 0.0 by {
      assert rootX * rootY >= 0.0;
    }
    var w := rootX * rootY;
    assert w * w == vx * vy by {
      assert w * w == (rootX * rootX) * (rootY * rootY);
    }
    assert r * r == (n * n) * (w * w);
    assert (n * vx) * (n * vy) == (n * n) * (vx * vy);
    SameSquare(root, r);
  }

  lemma SameSquare(a: real, b: real)
    requires a >= 0.0 && b >= 0.0 && a * a == b * b
    ensures a == b
  {
    assert (a - b) * (a + b) == 0.0;
    if a > b {
      PositiveProduct(a - b, a + b);
    } else if a < b {
      PositiveProduct(b - a, a + b);
    }
  }

  lemma CancelFactor(n: real, a: real, b: real)
    requires n != 0.0 && b != 0.0
    ensures n * b != 0.0 && (n * a) / (n * b) == a / b
  {
    var q := a / b;
    assert a == q * b;
    assert n * a == q * (n * b);
    if n * b == 0.0 {
      assert false;
    }
  }

  /** The two implementations agree wherever the utilities yield a number, and the service
      reports 0 exactly where they yield NaN or the series are uncorrelated. */
  lemma PearsonsAgree(x: seq<real>, y: seq<real>, denominator: real, rootX: real, rootY: real)
    requires |x| == |y|
    requires IsRoot(denominator, RawProduct(x, x) * RawProduct(y, y))
    requires IsRoot(rootX, CentredProduct(x, x)) && IsRoot(rootY, CentredProduct(y, y))
    ensures UtilsPearson(x, y, rootX, rootY).None? <==> denominator == 0.0
    ensures match UtilsPearson(x, y, rootX, rootY)
      case Some(r) => ServicePearson(x, y, denominator) == r
      case None => ServicePearson(x, y, denominator) == 0.0
  {
    var n := |x| as real;
    CentredIsRaw(x, x);
    CentredIsRaw(y, y);
    CentredIsRaw(x, y);
    RootsScale(n, denominator, rootX, rootY, CentredProduct(x, x), CentredProduct(y, y));
    var w := rootX * rootY;
    if x == [] {
      assert w == 0.0 by {
        assert rootX * rootX == 0.0;
        SameSquare(rootX, 0.0);
      }
    } else if w == 0.0 {
      assert denominator == 0.0;
    } else {
      CancelFactor(n, CentredProduct(x, y), w);
    }
  }

  /** The result is a correlation: it lies in [-1, 1] for series of every length. */
  lemma PearsonInRange(x: seq<real>, y: seq<real>, denominator: real)
    requires |x| == |y| && IsRoot(denominator, RawProduct(x, x) * RawProduct(y, y))
    ensures -1.0 <= ServicePearson(x, y, denominator) <= 1.0
  {
    hide Dot, Mean, RawProduct;
    var n := |x| as real;
    var cx, cy := Shift(x, Mean(x)), Shift(y, Mean(y));
    CentredIsRaw(x, x);
    CentredIsRaw(y, y);
    CentredIsRaw(x, y);
    CauchySchwarz(cx, cy);
    ScaledSquares(n, Dot(cx, cy), Dot(cx, cx), Dot(cy, cy));
    if denominator > 0.0 {
      QuotientInRange(RawProduct(x, y), denominator);
    }
  }

  lemma ScaledSquares(n: real, s: real, a: real, b: real)
    requires s * s <= a * b
    ensures (n * s) * (n * s) <= (n * a) * (n * b)
  {
    assert (n * s) * (n * s) == (n * n) * (s * s);
    assert (n * a) * (n * b) == (n * n) * (a * b);
    assert n * n >= 0.0;
    assert (n * n) * (a * b - s * s) >= 0.0;
  }

  lemma QuotientInRange(top: real, bottom: real)
    requires bottom > 0.0 && top * top <= bottom * bottom
    ensures -1.0 <= top / bottom <= 1.0
  {
    SquareBound(top, bottom);
    var q := top / bottom;
    assert top == q * bottom;
    if q > 1.0 {
      PositiveProduct(q - 1.0, bottom);
    } else if q < -1.0 {
      PositiveProduct(-1.0 - q, bottom);
    }
  }

  lemma SquareBound(top: real, bottom: real)
    requires bottom > 0.0 && top * top <= bottom * bottom
    ensures -bottom <= top <= bottom
  {
    assert (top - bottom) * (top + bottom) == top * top - bottom * bottom;
    assert (bottom - top) * (-bottom - top) == top * top - bottom * bottom;
    if top > bottom {
      PositiveProduct(top - bottom, top + bottom);
    } else if top < -bottom {
      PositiveProduct(bottom - top, -bottom - top);
    }
  }

  // ---------- degenerate series ----------

  predicate Constant(x: seq<real>) {
    forall i, j :: 0 <= i < j < |x| ==> x[i] == x[j]
  }

  lemma {:induction false} DotSelfZero(x: seq<real>)
    ensures Dot(x, x) == 0.0 <==> forall i :: 0 <= i < |x| ==> x[i] == 0.0
  {
    if x != [] {
      var n := |x| - 1;
      DotSelfNonNegative(x[..n]);
      DotSelfZero(x[..n]);
      if Dot(x, x) == 0.0 {
        assert x[n] * x[n] == 0.0;
        SameSquare(if x[n] >= 0.0 then x[n] else -x[n], 0.0);
        assert forall i :: 0 <= i < n ==> x[i] == x[..n][i];
      }
    }
  }

  lemma {:induction false} SumOfConstant(x: seq<real>, c: real)
    requires forall i :: 0 <= i < |x| ==> x[i] == c
    ensures Sum(x) == |x| as real * c
  {
    if x != [] {
      SumOfConstant(x[..|x| - 1], c);
      assert (|x| as real - 1.0) * c + c == |x| as real * c;
    }
  }

  lemma DivideBack(s: real, n: real, c: real)
    requires n > 0.0 && s == n * c
    ensures s / n == c
  {
    var q := s / n;
    assert q * n == n * c;
    if q > c {
      PositiveProduct(q - c, n);
    } else if q < c {
      PositiveProduct(c - q, n);
    }
  }

  lemma SpreadZeroExactly(x: seq<real>)
    ensures CentredProduct(x, x) == 0.0 <==> Constant(x)
  {
    hide Mean, Dot, Sum;
    DotSelfZero(Shift(x, Mean(x)));
    if Constant(x) && x != [] {
      MeanOfConstant(x);
    }
  }

  lemma MeanOfConstant(x: seq<real>)
    requires Constant(x) && x != []
    ensures Mean(x) == x[0]
  {
    SumOfConstant(x, x[0]);
    DivideBack(Sum(x), |x| as real, x[0]);
  }

  /** The service falls back to 0, and the utilities to NaN, exactly when one of the two
      series never changes. */
  lemma DegenerateExactly(x: seq<real>, y: seq<real>, denominator: real, rootX: real, rootY: real)
    requires |x| == |y|
    requires IsRoot(denominator, RawProduct(x, x) * RawProduct(y, y))
    requires IsRoot(rootX, CentredProduct(x, x)) && IsRoot(rootY, CentredProduct(y, y))
    ensures denominator == 0.0 <==> Constant(x) || Constant(y)
    ensures UtilsPearson(x, y, rootX, rootY).None? <==> Constant(x) || Constant(y)
  {
    PearsonsAgree(x, y, denominator, rootX, rootY);
    SpreadZeroExactly(x);
    SpreadZeroExactly(y);
    RootZero(rootX, CentredProduct(x, x));
    RootZero(rootY, CentredProduct(y, y));
  }

  lemma RootZero(r: real, v: real)
    requires IsRoot(r, v)
    ensures r == 0.0 <==> v == 0.0
  {
    if v == 0.0 {
      SameSquare(r, 0.0);
    }
  }
}
