/** The indicator library (`TechnicalIndicators`): stateless transforms of a
    price series into RSI, WMA and HMA series of the same length, with NaN
    wherever pandas yields NaN. */
module Indicators {
  import opened Base

  /** A pandas series of floats, oldest value first. */
  type Series = seq<Val>

  predicate AllNum(w: seq<Val>) {
    forall k | 0 <= k < |w| :: w[k].Num?
  }

  // ---------------------------------------------------------------------------
  // WMA
  // ---------------------------------------------------------------------------

  /** `np.dot(window, [1, 2, ..., n])`: the oldest value has weight 1, the
      newest weight n. */
  function Dot(w: seq<Val>): real
    requires AllNum(w)
  {
    if w == [] then 0.0 else Dot(w[..|w| - 1]) + (|w| as real) * w[|w| - 1].r
  }

  /** `weights.sum()` for the weights 1..n. */
  function WeightSum(n: nat): (s: real)
    ensures n >= 1 ==> s >= 1.0
  {
    (n as real) * (n as real + 1.0) / 2.0
  }

  /** The rolling window of length `period` that ends at index i. */
  function Window(xs: Series, period: nat, i: nat): (w: seq<Val>)
    requires i < |xs| && period <= i + 1
    ensures |w| == period
  {
    xs[i + 1 - period .. i + 1]
  }

  /** `prices.rolling(window=period).apply(dot / weights.sum())` at index i:
      NaN while the window is short or holds a NaN. */
  function WmaAt(xs: Series, period: nat, i: nat): Val
    requires 1 <= period && i < |xs|
  {
    if i + 1 < period then NaN
    else
      var w := Window(xs, period, i);
      if AllNum(w) then Num(Dot(w) / WeightSum(period)) else NaN
  }

  /** `calculate_wma(prices, period)`. */
  function Wma(xs: Series, period: nat): Series
    requires 1 <= period
  {
    seq(|xs|, i requires 0 <= i < |xs| => WmaAt(xs, period, i))
  }

  /** A weighted sum of values that all lie in [lo, hi] lies between lo and hi
      times the weight sum. */
  lemma {:induction false} DotBetween(w: seq<Val>, lo: real, hi: real)
    requires AllNum(w)
    requires forall k | 0 <= k < |w| :: lo <= w[k].r <= hi
    ensures lo * WeightSum(|w|) <= Dot(w) <= hi * WeightSum(|w|)
  {
    if w != [] {
      var n := |w|;
      var front := w[..n - 1];
      assert forall k | 0 <= k < |front| :: front[k] == w[k];
      DotBetween(front, lo, hi);
      assert WeightSum(n) == WeightSum(n - 1) + n as real;
      AccumulateBetween(lo, hi, WeightSum(n - 1), Dot(front), n as real, w[n - 1].r);
    }
  }

  /** Adding a non-negative weight w times a value in [lo, hi] keeps a sum
      between lo and hi times its total weight. */
  lemma AccumulateBetween(lo: real, hi: real, s: real, d: real, w: real, x: real)
    requires lo * s <= d <= hi * s && w >= 0.0 && lo <= x <= hi
    ensures lo * (s + w) <= d + w * x <= hi * (s + w)
  {
    assert w * (x - lo) >= 0.0;
    assert w * (hi - x) >= 0.0;
  }

  /** A sum between lo and hi times a positive total weight gives an average
      between lo and hi. */
  lemma ScaleBetween(lo: real, hi: real, d: real, s: real)
    requires lo * s <= d <= hi * s && s > 0.0
    ensures lo <= d / s <= hi
  {
    assert (d / s) * s == d;
  }

  /** The WMA at i is defined exactly when the window is complete and free of
      NaN; then it is the weighted sum over the weight sum. */
  lemma WmaDefinedness(xs: Series, period: nat, i: nat)
    requires 1 <= period && i < |xs|
    ensures Wma(xs, period)[i].Num? <==>
              i + 1 >= period && forall k | i + 1 - period <= k <= i :: xs[k].Num?
  {
    if i + 1 >= period {
      var w := Window(xs, period, i);
      assert forall k | i + 1 - period <= k <= i :: xs[k] == w[k - (i + 1 - period)];
    }
  }

  /** A WMA is an average: when every value of its window lies in [lo, hi], so
      does the WMA. */
  lemma WmaBetween(xs: Series, period: nat, i: nat, lo: real, hi: real)
    requires 1 <= period && i < |xs|
    requires forall k | 0 <= k <= i && i < k + period :: xs[k].Num? ==> lo <= xs[k].r <= hi
    ensures Wma(xs, period)[i].Num? ==> lo <= Wma(xs, period)[i].r <= hi
  {
    if Wma(xs, period)[i].Num? {
      var w := Window(xs, period, i);
      assert forall k | 0 <= k < |w| :: w[k] == xs[i + 1 - period + k];
      DotBetween(w, lo, hi);
      ScaleBetween(lo, hi, Dot(w), WeightSum(period));
    }
  }

  /** Over a constant series, the WMA is that constant once its window is
      complete, and NaN before. */
  lemma WmaOfConstant(xs: Series, period: nat, c: real, i: nat)
    requires 1 <= period && i < |xs|
    requires forall k | 0 <= k < |xs| :: xs[k] == Num(c)
    ensures Wma(xs, period)[i] == if i + 1 < period then NaN else Num(c)
  {
    WmaDefinedness(xs, period, i);
    WmaBetween(xs, period, i, c, c);
  }

  /** With period 1 the only weight is 1: the WMA is the series itself. */
  lemma WmaPeriodOne(xs: Series)
    ensures Wma(xs, 1) == xs
  {
    forall i | 0 <= i < |xs|
      ensures Wma(xs, 1)[i] == xs[i]
    {
      var w := Window(xs, 1, i);
      assert w == [xs[i]];
      if xs[i].Num? {
        assert w[..0] == [];
        assert Dot(w) == xs[i].r;
      }
    }
  }

  /** The WMA at i looks only at values up to index i. */
  lemma WmaCausal(xs: Series, ys: Series, period: nat, i: nat)
    requires 1 <= period && i < |xs| && i < |ys|
    requires xs[..i + 1] == ys[..i + 1]
    ensures Wma(xs, period)[i] == Wma(ys, period)[i]
  {
    if i + 1 >= period {
      assert Window(xs, period, i) == xs[..i + 1][i + 1 - period..];
      assert Window(ys, period, i) == ys[..i + 1][i + 1 - period..];
    }
  }

  // ---------------------------------------------------------------------------
  // HMA
  // ---------------------------------------------------------------------------

  /** Searches upward from k for the integer nearest to the square root of n. */
  function RoundSqrtFrom(n: nat, k: nat): (r: nat)
    requires k == 0 || 4 * k * k - 4 * k + 1 <= 4 * n
    ensures 4 * n < 4 * r * r + 4 * r + 1
    ensures r > 0 ==> 4 * r * r - 4 * r + 1 <= 4 * n
    decreases n - k
  {
    if 4 * n < 4 * k * k + 4 * k + 1 then k
    else
      assert k * k >= 0;
      RoundSqrtFrom(n, k + 1)
  }

  /** `int(round(np.sqrt(n)))`: the k with (k - 1/2)^2 <= n < (k + 1/2)^2.
      No integer n is a tie, so the rounding mode does not matter. */
  function RoundSqrt(n: nat): (k: nat)
    ensures 4 * n < 4 * k * k + 4 * k + 1
    ensures k > 0 ==> 4 * k * k - 4 * k + 1 <= 4 * n
    ensures n >= 1 ==> k >= 1
  {
    RoundSqrtFrom(n, 0)
  }

  /** The two bounds of RoundSqrt pick out a single integer. */
  lemma RoundSqrtUnique(n: nat, k: nat)
    requires 4 * n < 4 * k * k + 4 * k + 1
    requires k > 0 ==> 4 * k * k - 4 * k + 1 <= 4 * n
    ensures RoundSqrt(n) == k
  {
    var r := RoundSqrt(n);
    if r < k {
      Square4Grows(r + 1, k);
    } else if k < r {
      Square4Grows(k + 1, r);
    }
  }

  lemma Square4Grows(a: nat, b: nat)
    requires 1 <= a <= b
    ensures 4 * a * a - 4 * a <= 4 * b * b - 4 * b
    ensures 4 * a * a - 4 * a + 1 == 4 * (a - 1) * (a - 1) + 4 * (a - 1) + 1
  {
    assert b * b - a * a == (b - a) * (b + a);
    assert (b - a) * (b + a) >= (b - a) * 1;
  }

  /** The HMA of period 200 uses a final WMA over 14 values. */
  lemma RoundSqrtOf200()
    ensures RoundSqrt(200) == 14
  {
    RoundSqrtUnique(200, 14);
  }

  /** `2 * wma_half - wma_full` at index i, NaN when either side is NaN. */
  function HullRawAt(xs: Series, period: nat, i: nat): Val
    requires 2 <= period && i < |xs|
  {
    var half := WmaAt(xs, period / 2, i);
    var full := WmaAt(xs, period, i);
    if half.Num? && full.Num? then Num(2.0 * half.r - full.r) else NaN
  }

  function HullRaw(xs: Series, period: nat): Series
    requires 2 <= period
  {
    seq(|xs|, i requires 0 <= i < |xs| => HullRawAt(xs, period, i))
  }

  /** `calculate_hma(prices, period)`: WMA(2 WMA(n // 2) - WMA(n), round(sqrt n)). */
  function Hma(xs: Series, period: nat): Series
    requires 2 <= period
  {
    Wma(HullRaw(xs, period), RoundSqrt(period))
  }

  /** The raw Hull series is defined exactly where the full-period WMA is. */
  lemma HullRawDefinedness(xs: Series, period: nat, j: nat)
    requires 2 <= period && j < |xs|
    ensures HullRaw(xs, period)[j].Num? <==>
              j + 1 >= period && forall k | j + 1 - period <= k <= j :: xs[k].Num?
  {
    WmaDefinedness(xs, period / 2, j);
    WmaDefinedness(xs, period, j);
    assert Wma(xs, period / 2)[j] == WmaAt(xs, period / 2, j);
    assert Wma(xs, period)[j] == WmaAt(xs, period, j);
  }

  /** Warm-up of the HMA: it is never defined before index
      period + round(sqrt period) - 2, and over a NaN-free series it is defined
      from that index on (index 212 for period 200). */
  lemma HmaWarmup(xs: Series, period: nat, i: nat)
    requires 2 <= period && i < |xs|
    ensures Hma(xs, period)[i].Num? ==> i + 2 >= period + RoundSqrt(period)
    ensures AllNum(xs) ==> (Hma(xs, period)[i].Num? <==> i + 2 >= period + RoundSqrt(period))
  {
    var s := RoundSqrt(period);
    var raw := HullRaw(xs, period);
    WmaDefinedness(raw, s, i);
    if i + 1 >= s {
      HullRawDefinedness(xs, period, i + 1 - s);
      if AllNum(xs) && i + 2 >= period + s {
        forall j | i + 1 - s <= j <= i
          ensures raw[j].Num?
        {
          HullRawDefinedness(xs, period, j);
        }
      }
    }
  }

  /** A defined HMA at i implies a defined close at i. */
  lemma HmaNeedsValue(xs: Series, period: nat, i: nat)
    requires 2 <= period && i < |xs|
    ensures Hma(xs, period)[i].Num? ==> xs[i].Num?
  {
    var s := RoundSqrt(period);
    WmaDefinedness(HullRaw(xs, period), s, i);
    HullRawDefinedness(xs, period, i);
  }

  /** Flat-line identity: the HMA of a constant series is that constant
      wherever it is defined. */
  lemma HmaOfConstant(xs: Series, period: nat, c: real, i: nat)
    requires 2 <= period && i < |xs|
    requires forall k | 0 <= k < |xs| :: xs[k] == Num(c)
    ensures Hma(xs, period)[i].Num? ==> Hma(xs, period)[i] == Num(c)
  {
    var raw := HullRaw(xs, period);
    forall j | 0 <= j < |raw|
      ensures raw[j].Num? ==> raw[j] == Num(c)
    {
      WmaOfConstant(xs, period / 2, c, j);
      WmaOfConstant(xs, period, c, j);
      assert Wma(xs, period / 2)[j] == WmaAt(xs, period / 2, j);
      assert Wma(xs, period)[j] == WmaAt(xs, period, j);
    }
    WmaBetween(raw, RoundSqrt(period), i, c, c);
  }

  /** The HMA at i looks only at values up to index i. */
  lemma HmaCausal(xs: Series, ys: Series, period: nat, i: nat)
    requires 2 <= period && i < |xs| && i < |ys|
    requires xs[..i + 1] == ys[..i + 1]
    ensures Hma(xs, period)[i] == Hma(ys, period)[i]
  {
    var rx, ry := HullRaw(xs, period), HullRaw(ys, period);
    forall j | 0 <= j <= i
      ensures rx[j] == ry[j]
    {
      assert xs[..j + 1] == xs[..i + 1][..j + 1];
      assert ys[..j + 1] == ys[..i + 1][..j + 1];
      WmaCausal(xs, ys, period / 2, j);
      WmaCausal(xs, ys, period, j);
      assert Wma(xs, period / 2)[j] == WmaAt(xs, period / 2, j);
      assert Wma(xs, period)[j] == WmaAt(xs, period, j);
      assert Wma(ys, period / 2)[j] == WmaAt(ys, period / 2, j);
      assert Wma(ys, period)[j] == WmaAt(ys, period, j);
    }
    WmaCausal(rx, ry, RoundSqrt(period), i);
  }

  // ---------------------------------------------------------------------------
  // RSI
  // ---------------------------------------------------------------------------

  /** `prices.diff()` at i: NaN at index 0 and next to a NaN price. */
  function Delta(xs: Series, i: nat): Val
    requires i < |xs|
  {
    if i == 0 then NaN else Sub(xs[i], xs[i - 1])
  }

  /** `delta.where(delta > 0, 0)`: NaN fails the test, so it becomes 0 too. */
  function Gain(xs: Series, i: nat): real
    requires i < |xs|
  {
    var d := Delta(xs, i);
    if d.Num? && d.r > 0.0 then d.r else 0.0
  }

  /** `(-delta).where(delta < 0, 0)`. */
  function Loss(xs: Series, i: nat): real
    requires i < |xs|
  {
    var d := Delta(xs, i);
    if d.Num? && d.r < 0.0 then -d.r else 0.0
  }

  function Gains(xs: Series): (g: seq<real>)
    ensures |g| == |xs| && forall i | 0 <= i < |g| :: g[i] >= 0.0
  {
    seq(|xs|, i requires 0 <= i < |xs| => Gain(xs, i))
  }

  function Losses(xs: Series): (l: seq<real>)
    ensures |l| == |xs| && forall i | 0 <= i < |l| :: l[i] >= 0.0
  {
    seq(|xs|, i requires 0 <= i < |xs| => Loss(xs, i))
  }

  /** Gain and loss split each price change into its non-negative parts; both
      are 0 (never NaN) where the change is NaN, in particular at index 0. */
  lemma GainLossSplit(xs: Series, i: nat)
    requires i < |xs|
    ensures Gain(xs, i) >= 0.0 && Loss(xs, i) >= 0.0
    ensures Gain(xs, i) == 0.0 || Loss(xs, i) == 0.0
    ensures Delta(xs, i).Num? ==> Gain(xs, i) - Loss(xs, i) == Delta(xs, i).r
    ensures Delta(xs, i).NaN? ==> Gain(xs, i) == 0.0 && Loss(xs, i) == 0.0
    ensures i == 0 ==> Gain(xs, i) == 0.0 && Loss(xs, i) == 0.0
  {
  }

  /** 1 - alpha with alpha = 1 / period. */
  function Decay(period: nat): (b: real)
    requires period >= 1
    ensures 0.0 <= b < 1.0
  {
    1.0 - 1.0 / (period as real)
  }

  /** Numerator of pandas' adjusted exponentially weighted mean:
      sum over j <= t of b^(t-j) * g[j]. */
  function EwNumer(g: seq<real>, b: real, t: nat): real
    requires t < |g| && 0.0 <= b
  {
    if t == 0 then g[0] else g[t] + b * EwNumer(g, b, t - 1)
  }

  /** Denominator of the adjusted mean: sum over j <= t of b^(t-j). */
  function EwDenom(b: real, t: nat): (d: real)
    requires 0.0 <= b
    ensures d >= 1.0
  {
    if t == 0 then 1.0 else 1.0 + b * EwDenom(b, t - 1)
  }

  /** `ewm(alpha=1/period, min_periods=period).mean()` at t over a series
      without NaN: NaN until `period` observations have been seen. */
  function EwMean(g: seq<real>, period: nat, t: nat): (m: Val)
    requires period >= 1 && t < |g|
    ensures m.Num? <==> t + 1 >= period
    ensures m.Num? && (forall k | 0 <= k <= t :: g[k] >= 0.0) ==> m.r >= 0.0
  {
    if t + 1 < period then NaN
    else
      EwNumerNonNegative(g, Decay(period), t);
      Num(EwNumer(g, Decay(period), t) / EwDenom(Decay(period), t))
  }

  /** Non-negative values give a non-negative numerator. */
  lemma {:induction false} EwNumerNonNegative(g: seq<real>, b: real, t: nat)
    requires t < |g| && 0.0 <= b
    ensures (forall k | 0 <= k <= t :: g[k] >= 0.0) ==> EwNumer(g, b, t) >= 0.0
  {
    if t > 0 {
      EwNumerNonNegative(g, b, t - 1);
      var n := EwNumer(g, b, t - 1);
      assert n >= 0.0 ==> b * n >= 0.0;
    }
  }

  /** The adjusted numerator of values in [lo, hi] lies between lo and hi times
      the denominator. */
  lemma {:induction false} EwNumerBetween(g: seq<real>, b: real, t: nat, lo: real, hi: real)
    requires t < |g| && 0.0 <= b
    requires forall k | 0 <= k <= t :: lo <= g[k] <= hi
    ensures lo * EwDenom(b, t) <= EwNumer(g, b, t) <= hi * EwDenom(b, t)
  {
    if t > 0 {
      EwNumerBetween(g, b, t - 1, lo, hi);
      DecayBetween(lo, hi, EwNumer(g, b, t - 1), EwDenom(b, t - 1), b, g[t]);
    }
  }

  /** One step of the adjusted mean keeps its numerator between lo and hi
      times its denominator. */
  lemma DecayBetween(lo: real, hi: real, n: real, d: real, b: real, x: real)
    requires lo * d <= n <= hi * d && b >= 0.0 && lo <= x <= hi
    ensures lo * (1.0 + b * d) <= x + b * n <= hi * (1.0 + b * d)
  {
    assert b * (n - lo * d) >= 0.0;
    assert b * (hi * d - n) >= 0.0;
  }

  /** The smoothed mean is an average: it stays within the range of the
      values seen so far. */
  lemma EwMeanBetween(g: seq<real>, period: nat, t: nat, lo: real, hi: real)
    requires period >= 1 && t < |g|
    requires forall k | 0 <= k <= t :: lo <= g[k] <= hi
    ensures EwMean(g, period, t).Num? ==> lo <= EwMean(g, period, t).r <= hi
  {
    if t + 1 >= period {
      var b := Decay(period);
      EwNumerBetween(g, b, t, lo, hi);
      ScaleBetween(lo, hi, EwNumer(g, b, t), EwDenom(b, t));
    }
  }

  /** A positive newest value over non-negative earlier ones gives a positive
      smoothed mean. */
  lemma EwMeanPositive(g: seq<real>, period: nat, t: nat)
    requires period >= 1 && 1 <= t < |g| && t + 1 >= period
    requires forall k | 0 <= k < t :: g[k] >= 0.0
    requires g[t] > 0.0
    ensures EwMean(g, period, t).Num? && EwMean(g, period, t).r > 0.0
  {
    var b := Decay(period);
    EwNumerNonNegative(g, b, t - 1);
    var n', d := EwNumer(g, b, t - 1), EwDenom(b, t);
    assert b * n' >= 0.0;
    assert EwNumer(g, b, t) > 0.0;
    assert EwNumer(g, b, t) / d > 0.0;
  }

  /** The numerator at t depends only on the values up to t. */
  lemma {:induction false} EwNumerCausal(g: seq<real>, h: seq<real>, b: real, t: nat)
    requires t < |g| && t < |h| && 0.0 <= b
    requires forall k | 0 <= k <= t :: g[k] == h[k]
    ensures EwNumer(g, b, t) == EwNumer(h, b, t)
  {
    if t > 0 {
      EwNumerCausal(g, h, b, t - 1);
    }
  }

  /** `100 - 100 / (1 + avg_gain / avg_loss)` under floating-point division:
      a zero loss with a positive gain makes the ratio infinite and the RSI 100;
      0 / 0 is NaN. */
  function RsiOf(gain: real, loss: real): (v: Val)
    requires gain >= 0.0 && loss >= 0.0
    ensures v.NaN? <==> gain == 0.0 && loss == 0.0
    ensures v.Num? ==> 0.0 <= v.r <= 100.0 && v.r * (gain + loss) == 100.0 * gain
  {
    if loss > 0.0 then
      var rs := gain / loss;
      assert 100.0 / (1.0 + rs) == 100.0 * loss / (gain + loss);
      Num(100.0 - 100.0 / (1.0 + rs))
    else if gain > 0.0 then Num(100.0)
    else NaN
  }

  /** `calculate_rsi(prices, period)` at index t. */
  function RsiAt(xs: Series, period: nat, t: nat): Val
    requires period >= 1 && t < |xs|
  {
    var g := EwMean(Gains(xs), period, t);
    var l := EwMean(Losses(xs), period, t);
    if g.Num? && l.Num? then RsiOf(g.r, l.r) else NaN
  }

  function Rsi(xs: Series, period: nat): Series
    requires period >= 1
  {
    seq(|xs|, t requires 0 <= t < |xs| => RsiAt(xs, period, t))
  }

  /** The RSI is NaN during the first period - 1 indices (index period - 1 is
      already defined, because the first gain and loss are 0 rather than NaN),
      and every defined value lies in [0, 100]. */
  lemma RsiRange(xs: Series, period: nat, t: nat)
    requires period >= 1 && t < |xs|
    ensures Rsi(xs, period)[t].Num? ==> t + 1 >= period
    ensures Rsi(xs, period)[t].Num? ==> 0.0 <= Rsi(xs, period)[t].r <= 100.0
  {
  }

  /** Over strictly rising prices every loss is 0 and every later gain is
      positive, so the RSI is 100 wherever it is defined after index 0. */
  lemma RsiOfRisingPrices(xs: Series, period: nat, t: nat)
    requires period >= 1 && 1 <= t < |xs| && t + 1 >= period
    requires AllNum(xs)
    requires forall i | 1 <= i < |xs| :: xs[i - 1].r < xs[i].r
    ensures Rsi(xs, period)[t] == Num(100.0)
  {
    var gs, ls := Gains(xs), Losses(xs);
    assert forall k | 0 <= k <= t :: ls[k] == Loss(xs, k) == 0.0;
    EwMeanBetween(ls, period, t, 0.0, 0.0);
    EwMeanPositive(gs, period, t);
  }

  /** Over strictly falling prices every gain is 0 and every later loss is
      positive, so the RSI is 0 wherever it is defined after index 0. */
  lemma RsiOfFallingPrices(xs: Series, period: nat, t: nat)
    requires period >= 1 && 1 <= t < |xs| && t + 1 >= period
    requires AllNum(xs)
    requires forall i | 1 <= i < |xs| :: xs[i - 1].r > xs[i].r
    ensures Rsi(xs, period)[t] == Num(0.0)
  {
    var gs, ls := Gains(xs), Losses(xs);
    assert forall k | 0 <= k <= t :: gs[k] == Gain(xs, k) == 0.0;
    EwMeanBetween(gs, period, t, 0.0, 0.0);
    EwMeanPositive(ls, period, t);
  }

  /** The RSI at t looks only at prices up to index t. */
  lemma RsiCausal(xs: Series, ys: Series, period: nat, t: nat)
    requires period >= 1 && t < |xs| && t < |ys|
    requires xs[..t + 1] == ys[..t + 1]
    ensures Rsi(xs, period)[t] == Rsi(ys, period)[t]
  {
    assert forall k | 0 <= k <= t :: xs[k] == xs[..t + 1][k] == ys[k];
    var b := Decay(period);
    assert forall k | 0 <= k <= t :: Gains(xs)[k] == Gains(ys)[k];
    assert forall k | 0 <= k <= t :: Losses(xs)[k] == Losses(ys)[k];
    EwNumerCausal(Gains(xs), Gains(ys), b, t);
    EwNumerCausal(Losses(xs), Losses(ys), b, t);
  }
}
