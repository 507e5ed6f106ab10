/** The technical indicators of src/market-data/market-data.service.ts, and the second
    implementations of the same indicators in src/market-data/market-data.utils.ts.
    None stands for NaN, undefined or a hole in an array. */
module Indicators {
  import opened Basics
  import opened Reals
  import opened Series

  // ---------- moving averages ----------

  function Window(x: seq<real>, i: nat, period: Positive): seq<real>
    requires period - 1 <= i < |x|
  {
    x[i - period + 1..i + 1]
  }

  /** A total spread over a period. */
  function Spread(total: real, period: Positive): real {
    total / period as real
  }

  function WindowMean(x: seq<real>, i: nat, period: Positive): real
    requires period - 1 <= i < |x|
  {
    Spread(Sum(Window(x, i, period)), period)
  }

  /** One mean for every full window. */
  function Smas(prices: seq<real>, period: Positive): (sma: seq<real>)
    ensures |sma| == Max(0, |prices| - period + 1)
    ensures forall k :: 0 <= k < |sma| ==> sma[k] == WindowMean(prices, k + period - 1, period)
  {
    seq(Max(0, |prices| - period + 1),
        k requires 0 <= k < Max(0, |prices| - period + 1) => WindowMean(prices, k + period - 1, period))
  }

  method CalculateSMA(prices: seq<real>, period: Positive) returns (sma: seq<real>)
    ensures sma == Smas(prices, period)
  {
    sma := [];
    var i: int := period - 1;
    while i < |prices|
      invariant period - 1 <= i
      invariant |sma| == i - (period - 1)
      invariant |sma| <= |Smas(prices, period)|
      invariant sma == Smas(prices, period)[..|sma|]
    {
      var sum := Sum(prices[i - period + 1..i + 1]);
      sma := sma + [Spread(sum, period)];
      i := i + 1;
    }
  }

  /** The utilities pad the means to the length of the data: the same series as the unpadded
      one, shifted by period - 1. */
  function UtilsSMA(data: seq<real>, period: Positive): (sma: seq<Option<real>>)
    ensures |sma| == |data|
    ensures forall i :: 0 <= i < Min(period - 1, |data|) ==> sma[i] == None
    ensures forall k :: 0 <= k < |Smas(data, period)| ==> sma[k + period - 1] == Some(Smas(data, period)[k])
  {
    seq(|data|, i requires 0 <= i < |data| =>
      if i < period - 1 then None else Some(WindowMean(data, i, period)))
  }

  function Smoothing(period: Positive): (k: real)
    ensures 0.0 < k <= 1.0
  {
    2.0 / (period as real + 1.0)
  }

  /** The new price with weight k, the old average with the rest. */
  function Mix(price: real, average: real, k: real): real {
    price * k + average * (1.0 - k)
  }

  function Ema(prices: seq<real>, period: Positive, i: nat): real
    requires i < |prices|
  {
    if i == 0 then prices[0]
    else Mix(prices[i], Ema(prices, period, i - 1), Smoothing(period))
  }

  /** An empty series yields one undefined value. */
  method CalculateEMA(prices: seq<real>, period: Positive) returns (ema: seq<Option<real>>)
    ensures prices == [] ==> ema == [None]
    ensures prices != [] ==> |ema| == |prices|
    ensures forall i :: 0 <= i < |prices| ==> ema[i] == Some(Ema(prices, period, i))
  {
    hide Ema, Smoothing, Mix;
    var multiplier := Smoothing(period);
    if prices == [] { return [None]; }
    EmaFirst(prices, period);
    ema := [Some(prices[0])];
    for i := 1 to |prices|
      invariant |ema| == i
      invariant forall j :: 0 <= j < i ==> ema[j] == Some(Ema(prices, period, j))
    {
      EmaNext(prices, period, i);
      ema := ema + [Some(Mix(prices[i], ema[i - 1].value, multiplier))];
    }
  }

  lemma EmaFirst(prices: seq<real>, period: Positive)
    requires prices != []
    ensures Ema(prices, period, 0) == prices[0]
  {
  }

  lemma EmaNext(prices: seq<real>, period: Positive, i: nat)
    requires 1 <= i < |prices|
    ensures Ema(prices, period, i) == Mix(prices[i], Ema(prices, period, i - 1), Smoothing(period))
  {
  }

  /** An average never leaves the range of the prices it has seen. */
  lemma {:induction false} EmaWithinPrices(prices: seq<real>, period: Positive, i: nat, lo: real, hi: real)
    requires i < |prices|
    requires forall j :: 0 <= j <= i ==> lo <= prices[j] <= hi
    ensures lo <= Ema(prices, period, i) <= hi
  {
    if i > 0 {
      EmaWithinPrices(prices, period, i - 1, lo, hi);
      Between(prices[i], Ema(prices, period, i - 1), Smoothing(period), lo, hi);
    }
  }

  lemma MixForm(a: real, b: real, k: real)
    ensures Mix(a, b, k) == b + Times(a, k) - Times(b, k)
  {
  }

  lemma Between(a: real, b: real, k: real, lo: real, hi: real)
    requires 0.0 < k <= 1.0 && lo <= a <= hi && lo <= b <= hi
    ensures lo <= Mix(a, b, k) <= hi
  {
    hide Mix, Times;
    MixForm(a, b, k);
    TimesMonotone(lo, a, k);
    TimesMonotone(a, hi, k);
    RestMonotone(lo, b, k);
    RestMonotone(b, hi, k);
  }

  // ---------- trend ----------

  datatype Trend = InsufficientData | StrongUptrend | Uptrend | StrongDowntrend | Downtrend | Sideways

  function IdentifyTrend(sma: seq<real>, ema: seq<real>): Trend {
    if |sma| < 2 || |ema| < 2 then InsufficientData
    else
      var s, e := |sma| - 1, |ema| - 1;
      var smaRising, emaRising, emaAboveSma := sma[s] > sma[s - 1], ema[e] > ema[e - 1], ema[e] > sma[s];
      if smaRising && emaRising && emaAboveSma then StrongUptrend
      else if smaRising && emaRising then Uptrend
      else if !smaRising && !emaRising && !emaAboveSma then StrongDowntrend
      else if !smaRising && !emaRising then Downtrend
      else Sideways
  }

  function Emas(prices: seq<real>, period: Positive): (ema: seq<real>)
    ensures |ema| == |prices| && forall i :: 0 <= i < |prices| ==> ema[i] == Ema(prices, period, i)
  {
    seq(|prices|, i requires 0 <= i < |prices| => Ema(prices, period, i))
  }

  /** The trend of the service's analysis, at any period. */
  function TrendOf(prices: seq<real>, period: Positive): Trend {
    IdentifyTrend(Smas(prices, period), Emas(prices, period))
  }

  ghost predicate Rising(x: seq<real>) {
    forall i, j :: 0 <= i < j < |x| ==> x[i] < x[j]
  }

  ghost predicate Falling(x: seq<real>) {
    forall i, j :: 0 <= i < j < |x| ==> x[i] > x[j]
  }

  lemma EmaStep(prices: seq<real>, period: Positive, i: nat)
    requires 1 <= i < |prices|
    ensures var e := Ema(prices, period, i - 1);
      && (e < prices[i] ==> e < Ema(prices, period, i) <= prices[i])
      && (e > prices[i] ==> e > Ema(prices, period, i) >= prices[i])
  {
    hide Ema, Smoothing, Mix;
    EmaNext(prices, period, i);
    Towards(prices[i], Ema(prices, period, i - 1), Smoothing(period));
  }

  /** Mixing moves b towards a, and not beyond. */
  lemma Towards(a: real, b: real, k: real)
    requires 0.0 < k <= 1.0
    ensures b < a ==> b < Mix(a, b, k) <= a
    ensures b > a ==> b > Mix(a, b, k) >= a
  {
    hide Mix, Times;
    MixForm(a, b, k);
    if b < a {
      TimesStrict(b, a, k);
      RestMonotone(b, a, k);
    } else if b > a {
      TimesStrict(a, b, k);
      RestMonotone(a, b, k);
    }
  }

  lemma {:induction false} EmaTrails(prices: seq<real>, period: Positive, i: nat)
    requires i < |prices|
    ensures Rising(prices) ==> Ema(prices, period, i) <= prices[i]
    ensures Falling(prices) ==> Ema(prices, period, i) >= prices[i]
  {
    if i > 0 {
      EmaTrails(prices, period, i - 1);
      EmaStep(prices, period, i);
    }
  }

  /** Sliding a window by one replaces its oldest price by a new one. */
  lemma WindowSlides(prices: seq<real>, period: Positive, i: nat)
    requires period <= i < |prices|
    ensures Sum(Window(prices, i, period)) - Sum(Window(prices, i - 1, period)) == prices[i] - prices[i - period]
  {
    var old_, new_ := Window(prices, i - 1, period), Window(prices, i, period);
    SumFirst(old_);
    assert new_[..period - 1] == old_[1..];
  }

  lemma MeansCompare(prices: seq<real>, period: Positive, i: nat)
    requires period <= i < |prices|
    ensures WindowMean(prices, i, period) > WindowMean(prices, i - 1, period) <==> prices[i] > prices[i - period]
  {
    WindowSlides(prices, period, i);
    DivideBoth(Sum(Window(prices, i - 1, period)), Sum(Window(prices, i, period)), period as real);
  }

  lemma DivideBoth(a: real, b: real, d: real)
    requires d > 0.0
    ensures a / d < b / d <==> a < b
  {
    var p, q := a / d, b / d;
    assert a == p * d && b == q * d;
    if p < q {
      MulStrict(p, q, d);
    } else {
      MulMonotone(q, p, d);
    }
  }

  /** Prices that only rise are classified as an uptrend, prices that only fall as a
      downtrend, as soon as two full windows are available. */
  lemma MonotonePricesTrend(prices: seq<real>, period: Positive)
    requires |prices| >= 2
    ensures TrendOf(prices, period).InsufficientData? <==> |prices| <= period
    ensures Rising(prices) && |prices| > period ==> TrendOf(prices, period) in {StrongUptrend, Uptrend}
    ensures Falling(prices) && |prices| > period ==> TrendOf(prices, period) in {StrongDowntrend, Downtrend}
  {
    hide Ema, WindowMean;
    var n := |prices| - 1;
    EmaTrails(prices, period, n - 1);
    EmaStep(prices, period, n);
    if |prices| > period {
      MeansCompare(prices, period, n);
    }
  }

  /** A mean over a window, times the period, is the sum over the window. */
  lemma MeanTimesPeriod(x: seq<real>, i: nat, period: Positive)
    requires period - 1 <= i < |x|
    ensures WindowMean(x, i, period) * period as real == Sum(x[i - period + 1..i + 1])
  {
  }

  /** The exponential average moves by 2 / (period + 1) of its distance to the new price. */
  lemma EmaMoves(prices: seq<real>, period: Positive, i: nat)
    requires 1 <= i < |prices|
    ensures Ema(prices, period, 0) == prices[0]
    ensures var before, after := Ema(prices, period, i - 1), Ema(prices, period, i);
      (after - before) * (period as real + 1.0) == 2.0 * (prices[i] - before)
  {
    hide Ema, Smoothing, Mix, Times;
    EmaFirst(prices, period);
    EmaNext(prices, period, i);
    SmoothingTimes(period);
    MixedPart(prices[i], Ema(prices, period, i - 1), Smoothing(period), period as real + 1.0);
  }

  lemma SmoothingTimes(period: Positive)
    ensures Times(Smoothing(period), period as real + 1.0) == 2.0
  {
  }

  lemma MixedPart(a: real, b: real, k: real, p: real)
    requires Times(k, p) == 2.0
    ensures (Mix(a, b, k) - b) * p == 2.0 * (a - b)
  {
    assert Mix(a, b, k) - b == (a - b) * k;
    assert ((a - b) * k) * p == (a - b) * (k * p);
  }

  /** The trend in terms of the prices: both averages rise, one of them does, or none; and which of
      the two is higher. */
  lemma TrendExactly(prices: seq<real>, period: Positive)
    requires |prices| > period && |prices| >= 2
    ensures var n := |prices| - 1;
      var simpleRises := prices[n] > prices[n - period];
      var exponentialRises := prices[n] > Ema(prices, period, n - 1);
      var above := Ema(prices, period, n) > WindowMean(prices, n, period);
      TrendOf(prices, period) ==
        if simpleRises != exponentialRises then Sideways
        else if simpleRises then (if above then StrongUptrend else Uptrend)
        else (if above then Downtrend else StrongDowntrend)
  {
    hide Ema, WindowMean;
    var n := |prices| - 1;
    EmaStep(prices, period, n);
    EmaOfSame(prices, period, n);
    MeansCompare(prices, period, n);
  }

  lemma EmaOfSame(prices: seq<real>, period: Positive, i: nat)
    requires 1 <= i < |prices|
    ensures Ema(prices, period, i - 1) == prices[i] ==> Ema(prices, period, i) == prices[i]
  {
    hide Smoothing;
    EmaNext(prices, period, i);
    MixOfEqual(prices[i], Ema(prices, period, i - 1), Smoothing(period));
  }

  lemma MixOfEqual(a: real, b: real, k: real)
    ensures a == b ==> Mix(a, b, k) == a
  {
    hide Mix, Times;
    MixForm(a, b, k);
  }

  // ---------- relative strength ----------

  function Gain(prices: seq<real>, i: nat): (g: real)
    requires 1 <= i < |prices|
    ensures g >= 0.0
  {
    if prices[i] > prices[i - 1] then prices[i] - prices[i - 1] else 0.0
  }

  function Loss(prices: seq<real>, i: nat): (l: real)
    requires 1 <= i < |prices|
    ensures l >= 0.0
  {
    if prices[i] < prices[i - 1] then prices[i - 1] - prices[i] else 0.0
  }

  function Gains(prices: seq<real>): (g: seq<real>)
    ensures |g| == Max(0, |prices| - 1)
    ensures forall i :: 0 <= i < |g| ==> g[i] == Gain(prices, i + 1)
  {
    seq(Max(0, |prices| - 1), i requires 0 <= i < Max(0, |prices| - 1) => Gain(prices, i + 1))
  }

  function Losses(prices: seq<real>): (l: seq<real>)
    ensures |l| == Max(0, |prices| - 1)
    ensures forall i :: 0 <= i < |l| ==> l[i] == Loss(prices, i + 1)
  {
    seq(Max(0, |prices| - 1), i requires 0 <= i < Max(0, |prices| - 1) => Loss(prices, i + 1))
  }

  /** The strength index of a mean gain and a mean loss. Without losses their quotient is
      Infinity, which gives 100, or NaN when there is no gain either. */
  function Rsi(gain: real, loss: real): Option<real>
    requires gain >= 0.0 && loss >= 0.0
  {
    if loss == 0.0 then (if gain == 0.0 then None else Some(100.0))
    else
      assert gain / loss >= 0.0;
      Some(100.0 - 100.0 / (1.0 + gain / loss))
  }

  lemma RsiIsPercentage(gain: real, loss: real)
    requires gain >= 0.0 && loss >= 0.0
    ensures Rsi(gain, loss).None? <==> gain + loss == 0.0
    ensures gain + loss > 0.0 ==> 0.0 <= Rsi(gain, loss).value <= 100.0
    ensures gain + loss > 0.0 ==> Rsi(gain, loss).value * (gain + loss) == 100.0 * gain
  {
    if loss != 0.0 {
      var q := gain / loss;
      var t := 1.0 + q;
      var u := 100.0 / t;
      assert gain == q * loss && q >= 0.0;
      assert u * t == 100.0;
      NonNegativeProduct(100.0 / t, q);
      assert u * t == u + u * q;
      assert gain + loss == t * loss;
      assert u * (t * loss) == (u * t) * loss;
      assert (100.0 - u) * (t * loss) == 100.0 * (t * loss) - 100.0 * loss;
    }
  }

  /** The service's value for price k: plain means over the last `period` changes. */
  function ServiceRsi(prices: seq<real>, period: Positive, k: nat): Option<real>
    requires period <= k < |prices|
  {
    MeanNonNegative(Gains(prices), k - 1, period);
    MeanNonNegative(Losses(prices), k - 1, period);
    Rsi(WindowMean(Gains(prices), k - 1, period), WindowMean(Losses(prices), k - 1, period))
  }

  lemma MeanNonNegative(x: seq<real>, i: nat, period: Positive)
    requires period - 1 <= i < |x| && forall j :: 0 <= j < |x| ==> x[j] >= 0.0
    ensures WindowMean(x, i, period) >= 0.0
  {
    SumNonNegative(Window(x, i, period));
    NonNegativeQuotient(Sum(Window(x, i, period)), period as real);
  }

  /** The two means over the window that ends at change i. */
  lemma RsiOfWindows(prices: seq<real>, period: Positive, i: nat)
    requires period - 1 <= i < |prices| - 1
    ensures var gain := Spread(Sum(Gains(prices)[i - period + 1..i + 1]), period);
      var loss := Spread(Sum(Losses(prices)[i - period + 1..i + 1]), period);
      gain >= 0.0 && loss >= 0.0 && ServiceRsi(prices, period, i + 1) == Rsi(gain, loss)
  {
    hide Rsi;
    MeanNonNegative(Gains(prices), i, period);
    MeanNonNegative(Losses(prices), i, period);
  }

  method CalculateRSI(prices: seq<real>, period: Positive) returns (rsi: seq<Option<real>>)
    ensures |rsi| == Max(0, |prices| - period)
    ensures forall i :: 0 <= i < |rsi| ==> rsi[i] == ServiceRsi(prices, period, i + period)
  {
    hide Rsi, WindowMean, ServiceRsi, Window, Sum, Spread;
    rsi := [];
    var gains, losses := [], [];
    var i := 1;
    while i < |prices|
      invariant 1 <= i
      invariant |gains| == |losses| == i - 1 <= Max(0, |prices| - 1)
      invariant gains == Gains(prices)[..i - 1] && losses == Losses(prices)[..i - 1]
    {
      var change := prices[i] - prices[i - 1];
      gains := gains + [if change > 0.0 then change else 0.0];
      losses := losses + [if change < 0.0 then -change else 0.0];
      i := i + 1;
    }
    assert gains == Gains(prices) && losses == Losses(prices);
    i := period - 1;
    while i < |gains|
      invariant period - 1 <= i
      invariant |rsi| == i - (period - 1) <= Max(0, |prices| - period)
      invariant forall j :: 0 <= j < |rsi| ==> rsi[j] == ServiceRsi(prices, period, j + period)
    {
      RsiOfWindows(prices, period, i);
      var avgGain := Spread(Sum(gains[i - period + 1..i + 1]), period);
      var avgLoss := Spread(Sum(losses[i - period + 1..i + 1]), period);
      rsi := rsi + [Rsi(avgGain, avgLoss)];
      i := i + 1;
    }
  }

  /** A change is all gain or all loss. */
  lemma GainOrLoss(prices: seq<real>, i: nat)
    requires 1 <= i < |prices|
    ensures Gain(prices, i) - Loss(prices, i) == prices[i] - prices[i - 1]
    ensures Gain(prices, i) == 0.0 || Loss(prices, i) == 0.0
  {
  }

  /** Gains and losses over some changes make up the difference of the prices at their ends. */
  lemma {:induction false} ChangesTelescope(prices: seq<real>, lo: nat, hi: nat)
    requires lo <= hi < |prices|
    ensures Sum(Gains(prices)[lo..hi]) - Sum(Losses(prices)[lo..hi]) == prices[hi] - prices[lo]
  {
    hide Gain, Loss;
    if lo < hi {
      ChangesTelescope(prices, lo, hi - 1);
      GainOrLoss(prices, hi);
      assert Gains(prices)[lo..hi][..hi - 1 - lo] == Gains(prices)[lo..hi - 1];
      assert Losses(prices)[lo..hi][..hi - 1 - lo] == Losses(prices)[lo..hi - 1];
    }
  }

  /** The service's index at price k is the share of the gains in all movement over the last
      `period` changes, whose net is the difference of the prices. */
  lemma ServiceRsiIsShare(prices: seq<real>, period: Positive, k: nat)
    requires period <= k < |prices|
    ensures var g, l := Sum(Gains(prices)[k - period..k]), Sum(Losses(prices)[k - period..k]);
      && g - l == prices[k] - prices[k - period]
      && (ServiceRsi(prices, period, k).None? <==> g + l == 0.0)
      && (ServiceRsi(prices, period, k).Some? ==> ServiceRsi(prices, period, k).value * (g + l) == 100.0 * g)
  {
    hide Rsi, Sum, WindowMean, Gains, Losses;
    var g, l := Sum(Gains(prices)[k - period..k]), Sum(Losses(prices)[k - period..k]);
    ChangesTelescope(prices, k - period, k);
    MeanTimesPeriod(Gains(prices), k - 1, period);
    MeanTimesPeriod(Losses(prices), k - 1, period);
    MeanNonNegative(Gains(prices), k - 1, period);
    MeanNonNegative(Losses(prices), k - 1, period);
    var a, b := WindowMean(Gains(prices), k - 1, period), WindowMean(Losses(prices), k - 1, period);
    RsiIsPercentage(a, b);
    if ServiceRsi(prices, period, k).Some? {
      ScaledShare(ServiceRsi(prices, period, k).value, a, b, period as real, g, l);
    }
    ScaledZero(a, b, period as real, g, l);
  }

  lemma ScaledShare(r: real, a: real, b: real, p: real, g: real, l: real)
    requires r * (a + b) == 100.0 * a && a * p == g && b * p == l
    ensures r * (g + l) == 100.0 * g
  {
    assert r * (g + l) == r * (a * p + b * p) == (r * (a + b)) * p == 100.0 * (a * p);
  }

  lemma ScaledZero(a: real, b: real, p: real, g: real, l: real)
    requires p > 0.0 && a >= 0.0 && b >= 0.0 && a * p == g && b * p == l
    ensures a + b == 0.0 <==> g + l == 0.0
  {
    assert (a + b) * p == g + l;
    if a + b > 0.0 {
      PositiveProduct(a + b, p);
    }
  }

  function WilderNext(mean: real, change: real, period: Positive): real {
    Spread(mean * (period as real - 1.0) + change, period)
  }

  /** Wilder's smoothed mean of a change series, from the first full window on. */
  function Wilder(changes: seq<real>, period: Positive, i: nat): real
    requires period - 1 <= i < |changes|
  {
    if i == period - 1 then WindowMean(changes, i, period)
    else WilderNext(Wilder(changes, period, i - 1), changes[i], period)
  }

  /** Wilder's mean starts with the plain mean of the first window, and then takes in each change
      with weight 1 / period. */
  lemma WilderMoves(changes: seq<real>, period: Positive, i: nat)
    requires period - 1 <= i < |changes|
    ensures i == period - 1 ==> Wilder(changes, period, i) * period as real == Sum(changes[..period])
    ensures i >= period ==>
      var before, after := Wilder(changes, period, i - 1), Wilder(changes, period, i);
      (after - before) * period as real == changes[i] - before
  {
    hide Sum;
    if i == period - 1 {
      MeanTimesPeriod(changes, i, period);
    } else {
      WilderStep(changes, period, i);
      WilderPart(Wilder(changes, period, i - 1), changes[i], period);
    }
  }

  lemma WilderPart(mean: real, change: real, period: Positive)
    ensures (WilderNext(mean, change, period) - mean) * period as real == change - mean
  {
    var p := period as real;
    var next := WilderNext(mean, change, period);
    assert next * p == mean * (p - 1.0) + change;
  }

  lemma {:induction false} WilderNonNegative(changes: seq<real>, period: Positive, i: nat)
    requires period - 1 <= i < |changes| && forall j :: 0 <= j < |changes| ==> changes[j] >= 0.0
    ensures Wilder(changes, period, i) >= 0.0
  {
    if i == period - 1 {
      MeanNonNegative(changes, i, period);
    } else {
      WilderNonNegative(changes, period, i - 1);
      var a := Wilder(changes, period, i - 1);
      NonNegativeProduct(a, period as real - 1.0);
      NonNegativeQuotient(a * (period as real - 1.0) + changes[i], period as real);
    }
  }

  function WilderRsi(prices: seq<real>, period: Positive, k: nat): Option<real>
    requires period <= k < |prices|
  {
    WilderNonNegative(Gains(prices), period, k - 1);
    WilderNonNegative(Losses(prices), period, k - 1);
    Rsi(Wilder(Gains(prices), period, k - 1), Wilder(Losses(prices), period, k - 1))
  }

  /** Index k of the result belongs to price k; earlier indices are holes, and data too short
      for one window gives a single NaN at index `period`. */
  function RsiAt(prices: seq<real>, period: Positive, k: nat): Option<real> {
    if period <= k < |prices| then WilderRsi(prices, period, k) else None
  }

  ghost predicate RsisOf(prices: seq<real>, period: Positive, rsi: seq<Option<real>>) {
    forall k :: 0 <= k < |rsi| ==> rsi[k] == RsiAt(prices, period, k)
  }

  lemma RsisBefore(prices: seq<real>, period: Positive, rsi: seq<Option<real>>)
    requires |rsi| <= period && forall k :: 0 <= k < |rsi| ==> rsi[k] == None
    ensures RsisOf(prices, period, rsi)
  {
  }

  lemma RsisAre(prices: seq<real>, period: Positive, rsi: seq<Option<real>>)
    requires RsisOf(prices, period, rsi)
    ensures forall k :: 0 <= k < |rsi| ==>
              rsi[k] == if period <= k < |prices| then WilderRsi(prices, period, k) else None
  {
    hide WilderRsi;
  }

  lemma RsisAppend(prices: seq<real>, period: Positive, rsi: seq<Option<real>>, next: Option<real>)
    requires RsisOf(prices, period, rsi) && next == RsiAt(prices, period, |rsi|)
    ensures RsisOf(prices, period, rsi + [next])
  {
    hide RsiAt;
  }

  method UtilsRSI(data: seq<real>, period: Positive) returns (rsi: seq<Option<real>>)
    ensures |rsi| == Max(period + 1, |data|)
    ensures forall k :: 0 <= k < |rsi| ==> rsi[k] == if period <= k < |data| then WilderRsi(data, period, k) else None
  {
    hide WilderNext, WindowMean, Rsi, Wilder, WilderRsi, Spread, Sum, RsisOf;
    rsi := seq(period, _ => None);
    RsisBefore(data, period, rsi);
    if |data| <= period {
      RsisAppend(data, period, rsi, None);
      rsi := rsi + [None];
      RsisAre(data, period, rsi);
      return;
    }
    var gains, losses := FirstChanges(data, period);
    var avgGain, avgLoss := Spread(gains, period), Spread(losses, period);
    FirstMeans(data, period);
    RsiFromMeans(data, period, period);
    RsisAppend(data, period, rsi, Rsi(avgGain, avgLoss));
    rsi := rsi + [Rsi(avgGain, avgLoss)];
    for i := period + 1 to |data|
      invariant |rsi| == i && RsisOf(data, period, rsi)
      invariant avgGain == Wilder(Gains(data), period, i - 2) && avgLoss == Wilder(Losses(data), period, i - 2)
    {
      avgGain, avgLoss := Smooth(data, period, i, avgGain, avgLoss);
      RsiFromMeans(data, period, i);
      RsisAppend(data, period, rsi, Rsi(avgGain, avgLoss));
      rsi := rsi + [Rsi(avgGain, avgLoss)];
    }
    RsisAre(data, period, rsi);
  }

  /** Lines 42 to 47 of the utilities: both smoothed means take in the change at price i. */
  method Smooth(data: seq<real>, period: Positive, i: nat, avgGain: real, avgLoss: real)
    returns (gainNext: real, lossNext: real)
    requires period < i < |data|
    requires avgGain == Wilder(Gains(data), period, i - 2) && avgLoss == Wilder(Losses(data), period, i - 2)
    ensures gainNext == Wilder(Gains(data), period, i - 1) && lossNext == Wilder(Losses(data), period, i - 1)
  {
    hide WilderNext, WindowMean, Wilder;
    var diff := data[i] - data[i - 1];
    var gain := if diff >= 0.0 then diff else 0.0;
    var loss := if diff < 0.0 then -diff else 0.0;
    WilderStep(Gains(data), period, i - 1);
    WilderStep(Losses(data), period, i - 1);
    assert gain == Gains(data)[i - 1] && loss == Losses(data)[i - 1];
    gainNext, lossNext := WilderNext(avgGain, gain, period), WilderNext(avgLoss, loss, period);
  }

  lemma FirstMeans(data: seq<real>, period: Positive)
    requires period < |data|
    ensures Wilder(Gains(data), period, period - 1) == Spread(Sum(Gains(data)[..period]), period)
    ensures Wilder(Losses(data), period, period - 1) == Spread(Sum(Losses(data)[..period]), period)
  {
    FirstMean(Gains(data), period);
    FirstMean(Losses(data), period);
  }

  lemma WilderStep(changes: seq<real>, period: Positive, i: nat)
    requires period <= i < |changes|
    ensures Wilder(changes, period, i) == WilderNext(Wilder(changes, period, i - 1), changes[i], period)
  {
  }

  lemma RsiFromMeans(prices: seq<real>, period: Positive, k: nat)
    requires period <= k < |prices|
    ensures var gain, loss := Wilder(Gains(prices), period, k - 1), Wilder(Losses(prices), period, k - 1);
      gain >= 0.0 && loss >= 0.0 && WilderRsi(prices, period, k) == Rsi(gain, loss)
  {
    WilderNonNegative(Gains(prices), period, k - 1);
    WilderNonNegative(Losses(prices), period, k - 1);
  }

  method FirstChanges(data: seq<real>, period: Positive) returns (gains: real, losses: real)
    requires period < |data|
    ensures gains == Sum(Gains(data)[..period]) && losses == Sum(Losses(data)[..period])
  {
    ghost var g, l := Gains(data), Losses(data);
    gains, losses := 0.0, 0.0;
    for i := 1 to period + 1
      invariant gains == Sum(g[..i - 1]) && losses == Sum(l[..i - 1])
    {
      assert g[..i][..i - 1] == g[..i - 1] && l[..i][..i - 1] == l[..i - 1];
      var diff := data[i] - data[i - 1];
      if diff >= 0.0 {
        gains := gains + diff;
      } else {
        losses := losses - diff;
      }
    }
  }

  lemma FirstMean(changes: seq<real>, period: Positive)
    requires period <= |changes|
    ensures Wilder(changes, period, period - 1) == Spread(Sum(changes[..period]), period)
  {
    assert Window(changes, period - 1, period) == changes[..period];
  }

  ghost predicate RsisAgree(period: Positive) {
    forall prices, k: nat :: period <= k < |prices| ==> ServiceRsi(prices, period, k) == WilderRsi(prices, period, k)
  }

  /** After the first value they part, because Wilder's mean never forgets: one gain, a standstill until
      it has left the plain window, then one loss. */
  function OneGainOneLoss(period: Positive): (prices: seq<real>)
    ensures |prices| == period + 2
  {
    [0.0] + seq(period, _ => 1.0) + [0.0]
  }

  lemma ChangesOfOneGain(period: Positive)
    ensures var g := Gains(OneGainOneLoss(period));
      |g| == period + 1 && g[0] == 1.0 && forall i :: 1 <= i <= period ==> g[i] == 0.0
  {
  }

  /** The plain window has lost sight of the gain, the smoothed mean has not. */
  lemma MeansOfOneGain(period: Positive)
    requires period >= 2
    ensures var g := Gains(OneGainOneLoss(period));
      && |g| == period + 1
      && WindowMean(g, period, period) == 0.0
      && Wilder(g, period, period) > 0.0
  {
    hide WilderNext, Gains, OneGainOneLoss;
    ChangesOfOneGain(period);
    var g := Gains(OneGainOneLoss(period));
    SumOfZeros(Window(g, period, period));
    var first := Window(g, period - 1, period);
    SumFirst(first);
    SumOfZeros(first[1..]);
    assert Wilder(g, period, period - 1) == 1.0 / period as real;
    SmoothedStaysPositive(1.0 / period as real, period);
  }

  lemma SmoothedStaysPositive(mean: real, period: Positive)
    requires period >= 2 && mean == 1.0 / period as real
    ensures WilderNext(mean, 0.0, period) > 0.0
  {
    PositiveQuotient(1.0, period as real);
    PositiveProduct(mean, period as real - 1.0);
    PositiveQuotient(mean * (period as real - 1.0), period as real);
  }

  lemma RsisPart(period: Positive)
    requires period >= 2
    ensures ServiceRsi(OneGainOneLoss(period), period, period + 1)
            != WilderRsi(OneGainOneLoss(period), period, period + 1)
  {
    hide Rsi, Wilder, WindowMean, Gains, OneGainOneLoss;
    var prices := OneGainOneLoss(period);
    var g, l := Gains(prices), Losses(prices);
    MeansOfOneGain(period);
    MeanNonNegative(l, period, period);
    WilderNonNegative(l, period, period);
    GainMakesRsiPositive(Wilder(g, period, period), Wilder(l, period, period));
    NoGainMakesRsiZero(WindowMean(l, period, period));
  }

  lemma GainMakesRsiPositive(gain: real, loss: real)
    requires gain > 0.0 && loss >= 0.0
    ensures Rsi(gain, loss).Some? && Rsi(gain, loss).value > 0.0
  {
    RsiIsPercentage(gain, loss);
    PositiveFactor(Rsi(gain, loss).value, gain + loss);
  }

  lemma PositiveFactor(a: real, b: real)
    requires a >= 0.0 && b > 0.0 && a * b > 0.0
    ensures a > 0.0
  {
  }

  lemma NoGainMakesRsiZero(loss: real)
    requires loss >= 0.0
    ensures Rsi(0.0, loss).Some? ==> Rsi(0.0, loss).value == 0.0
  {
  }

  lemma {:induction false} SumOfZeros(x: seq<real>)
    requires forall i :: 0 <= i < |x| ==> x[i] == 0.0
    ensures Sum(x) == 0.0
  {
    if x != [] {
      SumOfZeros(x[..|x| - 1]);
    }
  }

  lemma WilderForgetsAtOnce(changes: seq<real>, i: nat)
    requires i < |changes|
    ensures Wilder(changes, 1, i) == WindowMean(changes, i, 1) == changes[i]
  {
    var w := Window(changes, i, 1);
    assert w[..0] == [];
    assert Sum(w) == changes[i];
  }

  /** The two implementations always agree on their first value; on all values they agree only
      for a period of one. */
  lemma RsisAgreeExactly(period: Positive)
    ensures forall prices :: |prices| > period ==>
              ServiceRsi(prices, period, period) == WilderRsi(prices, period, period)
    ensures RsisAgree(period) <==> period == 1
  {
    if period == 1 {
      forall prices, k: nat | period <= k < |prices|
        ensures ServiceRsi(prices, period, k) == WilderRsi(prices, period, k)
      {
        WilderForgetsAtOnce(Gains(prices), k - 1);
        WilderForgetsAtOnce(Losses(prices), k - 1);
      }
    } else {
      RsisPart(period);
    }
  }

  /** Both are percentages wherever they are numbers. */
  lemma RsisArePercentages(prices: seq<real>, period: Positive, k: nat)
    requires period <= k < |prices|
    ensures ServiceRsi(prices, period, k).Some? ==> 0.0 <= ServiceRsi(prices, period, k).value <= 100.0
    ensures WilderRsi(prices, period, k).Some? ==> 0.0 <= WilderRsi(prices, period, k).value <= 100.0
  {
    MeanNonNegative(Gains(prices), k - 1, period);
    MeanNonNegative(Losses(prices), k - 1, period);
    RsiIsPercentage(WindowMean(Gains(prices), k - 1, period), WindowMean(Losses(prices), k - 1, period));
    WilderNonNegative(Gains(prices), period, k - 1);
    WilderNonNegative(Losses(prices), period, k - 1);
    RsiIsPercentage(Wilder(Gains(prices), period, k - 1), Wilder(Losses(prices), period, k - 1));
  }
}
