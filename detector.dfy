/** The per-pair crossing detector: what `analyze_symbol_interval` does once
    the kline table has been fetched, and the title that
    `format_telegram_alert` picks for a detection. */
module Detector {
  import opened Base
  import opened Indicators

  /** Fewer rows than this and the detector returns at once. */
  const MinRows: nat := 211
  /** Order of the Hull moving average column `hma_200`. */
  const HmaPeriod: nat := 200

  /** A kline row as the detector reads it; `timestamp` is the rendered
      candle open time. */
  datatype Candle = Candle(timestamp: string, close: Val)

  /** The detector's configuration: `rsi_period`, `rsi_oversold`,
      `rsi_overbought`. */
  datatype Config = Config(rsiPeriod: int, oversold: real, overbought: real)

  /** One row of the table after the `rsi` and `hma_200` columns are added. */
  datatype Row = Row(timestamp: string, close: Val, rsi: Val, hma: Val)

  /** The four crossing conditions, in the order they are evaluated. */
  datatype Signal = OversoldCross | OverboughtCross | HmaAbove | HmaBelow

  /** `hma_position`: "상단" (above) or "하단" (below). */
  datatype Position = Above | Below

  /** The dictionary returned for a pair with at least one signal. */
  datatype Detection = Detection(
    symbol: string,
    baseCoin: string,
    interval: string,
    intervalName: string,
    price: Val,
    rsi: real,
    rsiPrev: real,
    hma: real,
    position: Position,
    signals: seq<Signal>,
    signalType: Signal,
    datetime: string)

  /** What one call of `analyze_symbol_interval` ends in: a detection,
      `None`, or an exception. */
  datatype Outcome = Detected(detection: Detection) | NoSignal | Raised

  /** None of the four indicator values the detector reads is NaN. */
  predicate Defined(prev: Row, latest: Row) {
    prev.rsi.Num? && latest.rsi.Num? && prev.hma.Num? && latest.hma.Num?
  }

  /** Whether the crossing condition s holds between the two closed rows.
      RSI crossings are strict on the prior side and inclusive on the latest
      side; a NaN close makes every price comparison false. */
  predicate Fires(s: Signal, prev: Row, latest: Row, cfg: Config)
    requires Defined(prev, latest)
  {
    match s
    case OversoldCross => prev.rsi.r > cfg.oversold && latest.rsi.r <= cfg.oversold
    case OverboughtCross => prev.rsi.r < cfg.overbought && latest.rsi.r >= cfg.overbought
    case HmaAbove => AtMost(prev.close, prev.hma) && Less(latest.hma, latest.close)
    case HmaBelow => AtMost(prev.hma, prev.close) && Less(latest.close, latest.hma)
  }

  /** Position of a signal in the evaluation order. */
  function Rank(s: Signal): nat {
    match s
    case OversoldCross => 0
    case OverboughtCross => 1
    case HmaAbove => 2
    case HmaBelow => 3
  }

  /** The `signals` list: each condition that fires is appended in turn. */
  function Fired(prev: Row, latest: Row, cfg: Config): seq<Signal>
    requires Defined(prev, latest)
  {
    (if Fires(OversoldCross, prev, latest, cfg) then [OversoldCross] else [])
    + (if Fires(OverboughtCross, prev, latest, cfg) then [OverboughtCross] else [])
    + (if Fires(HmaAbove, prev, latest, cfg) then [HmaAbove] else [])
    + (if Fires(HmaBelow, prev, latest, cfg) then [HmaBelow] else [])
  }

  /** `signal_type` after the four tests: an RSI crossing assigns it
      unconditionally, an HMA crossing only while it is still unset. */
  function SignalType(prev: Row, latest: Row, cfg: Config): Option<Signal>
    requires Defined(prev, latest)
  {
    var t1 := if Fires(OversoldCross, prev, latest, cfg) then Some(OversoldCross) else None;
    var t2 := if Fires(OverboughtCross, prev, latest, cfg) then Some(OverboughtCross) else t1;
    var t3 := if Fires(HmaAbove, prev, latest, cfg) && t2.None? then Some(HmaAbove) else t2;
    if Fires(HmaBelow, prev, latest, cfg) && t3.None? then Some(HmaBelow) else t3
  }

  /** `price_now > hma_now`; equality and NaN count as below. */
  function PositionOf(latest: Row): Position {
    if Less(latest.hma, latest.close) then Above else Below
  }

  /** pat occurs nowhere in s. */
  predicate Free(s: string, pat: string)
    requires |pat| > 0
    decreases |s|
  {
    |s| < |pat| || (s[..|pat|] != pat && Free(s[1..], pat))
  }

  /** `symbol.replace("USDT", "")`, or any other non-empty pattern: every
      occurrence, scanning left to right without overlaps, is removed. */
  function RemoveAll(s: string, pat: string): (r: string)
    requires |pat| > 0
    ensures |r| <= |s|
    ensures Free(s, pat) ==> r == s
    decreases |s|
  {
    if |s| < |pat| then s
    else if s[..|pat|] == pat then RemoveAll(s[|pat|..], pat)
    else [s[0]] + RemoveAll(s[1..], pat)
  }

  /** `base_coin` of a quote-currency symbol: a coin name in which "USDT"
      does not occur, followed by "USDT", loses exactly that suffix. No
      window across the seam matches, because no proper suffix of "USDT" is a
      prefix of it. */
  lemma {:induction false} RemoveQuoteSuffix(coin: string)
    requires Free(coin, "USDT")
    ensures RemoveAll(coin + "USDT", "USDT") == coin
    decreases |coin|
  {
    var s := coin + "USDT";
    if coin == [] {
      assert s[..4] == "USDT" && s[4..] == [];
    } else {
      assert s[1..] == coin[1..] + "USDT";
      if |coin| >= 4 {
        assert s[..4] == coin[..4];
      } else {
        assert s[|coin|] == 'U' && "USDT"[|coin|] != 'U';
        assert s[..4][|coin|] != "USDT"[|coin|];
      }
      RemoveQuoteSuffix(coin[1..]);
    }
  }

  /** The crossing decision on the two most recent closed rows `prev` and
      `latest`: no detection when an RSI or HMA value is NaN or when no
      condition fires. */
  function Detect(symbol: string, interval: string, intervalName: string,
                  prev: Row, latest: Row, cfg: Config): (r: Option<Detection>)
    ensures r.Some? ==> Defined(prev, latest)
    ensures r.Some? ==> r.value.symbol == symbol && r.value.interval == interval
                        && r.value.intervalName == intervalName
    ensures r.Some? ==> r.value.datetime == latest.timestamp && r.value.price == latest.close
    ensures r.Some? ==> r.value.rsi == latest.rsi.r && r.value.rsiPrev == prev.rsi.r
                        && r.value.hma == latest.hma.r
  {
    if !Defined(prev, latest) then None
    else
      var signals := Fired(prev, latest, cfg);
      if signals == [] then None
      else
        var kind := SignalType(prev, latest, cfg);
        assert kind.Some?;
        Some(Detection(symbol, RemoveAll(symbol, "USDT"), interval, intervalName,
                       latest.close, latest.rsi.r, prev.rsi.r, latest.hma.r,
                       PositionOf(latest), signals, kind.value, latest.timestamp))
  }

  /** The two RSI crossings never fire together, whatever the thresholds:
      the prior value would have to lie strictly between oversold and
      overbought while the latest lies at or beyond both. Likewise the two HMA
      crossings exclude each other. */
  lemma CrossingsExclusive(prev: Row, latest: Row, cfg: Config)
    requires Defined(prev, latest)
    ensures !(Fires(OversoldCross, prev, latest, cfg) && Fires(OverboughtCross, prev, latest, cfg))
    ensures !(Fires(HmaAbove, prev, latest, cfg) && Fires(HmaBelow, prev, latest, cfg))
  {
  }

  /** Exactly the conditions that fire are listed, in evaluation order; a
      detection is returned exactly when the indicators are defined and some
      condition fires; `signal_type` is the first listed signal, so it is an
      RSI kind whenever an RSI crossing fired. */
  lemma {:induction false} DetectSignals(symbol: string, interval: string, intervalName: string,
                                         prev: Row, latest: Row, cfg: Config)
    ensures Detect(symbol, interval, intervalName, prev, latest, cfg).Some? <==>
              Defined(prev, latest) && exists s: Signal :: Fires(s, prev, latest, cfg)
    ensures Detect(symbol, interval, intervalName, prev, latest, cfg).Some? ==>
              var d := Detect(symbol, interval, intervalName, prev, latest, cfg).value;
              && (forall s: Signal :: s in d.signals <==> Fires(s, prev, latest, cfg))
              && (forall i, j | 0 <= i < j < |d.signals| :: Rank(d.signals[i]) < Rank(d.signals[j]))
              && 1 <= |d.signals| <= 2
              && d.signalType == d.signals[0]
              && ((d.signalType == OversoldCross || d.signalType == OverboughtCross) <==>
                    (OversoldCross in d.signals || OverboughtCross in d.signals))
  {
    if Defined(prev, latest) {
      CrossingsExclusive(prev, latest, cfg);
      var signals := Fired(prev, latest, cfg);
      forall s: Signal
        ensures s in signals <==> Fires(s, prev, latest, cfg)
      {
        match s
        case OversoldCross =>
        case OverboughtCross =>
        case HmaAbove =>
        case HmaBelow =>
      }
      if exists s: Signal :: Fires(s, prev, latest, cfg) {
        var s: Signal :| Fires(s, prev, latest, cfg);
        assert s in signals;
      }
    }
  }

  /** `hma_position` is above exactly when the latest close is above the
      latest HMA; an upward HMA crossing therefore reports above and a
      downward one below. */
  lemma DetectPosition(symbol: string, interval: string, intervalName: string,
                       prev: Row, latest: Row, cfg: Config)
    requires Detect(symbol, interval, intervalName, prev, latest, cfg).Some?
    ensures var d := Detect(symbol, interval, intervalName, prev, latest, cfg).value;
            && (d.position == Above <==> latest.close.Num? && latest.close.r > latest.hma.r)
            && (HmaAbove in d.signals ==> d.position == Above)
            && (HmaBelow in d.signals ==> d.position == Below)
  {
    DetectSignals(symbol, interval, intervalName, prev, latest, cfg);
  }

  /** The closing prices of the table, as the `close` column. */
  function Closes(candles: seq<Candle>): (xs: Series)
    ensures |xs| == |candles|
  {
    seq(|candles|, i requires 0 <= i < |candles| => candles[i].close)
  }

  /** Row i of the table with its computed `rsi` and `hma_200` columns. */
  function RowAt(candles: seq<Candle>, period: nat, i: nat): Row
    requires period >= 1 && i < |candles|
  {
    var xs := Closes(candles);
    Row(candles[i].timestamp, xs[i], Rsi(xs, period)[i], Hma(xs, HmaPeriod)[i])
  }

  /** `analyze_symbol_interval` after the fetch: the table is too short, the
      RSI period is rejected (division by zero or an invalid `alpha`), or the
      crossing decision is taken on rows len-3 (`prev`) and len-2 (`latest`);
      the last row, whose candle is still forming, is never read. */
  function Analyze(symbol: string, interval: string, intervalName: string,
                   candles: seq<Candle>, cfg: Config): (o: Outcome)
    ensures o.Raised? <==> |candles| >= MinRows && cfg.rsiPeriod <= 0
    ensures o.Detected? ==> o.detection.symbol == symbol && o.detection.interval == interval
    ensures o.Detected? ==> |candles| >= MinRows
                            && o.detection.datetime == candles[|candles| - 2].timestamp
                            && o.detection.price == candles[|candles| - 2].close
  {
    if |candles| < MinRows then NoSignal
    else if cfg.rsiPeriod <= 0 then Raised
    else
      var n := |candles|;
      AnalyzeRows(symbol, interval, intervalName,
                  RowAt(candles, cfg.rsiPeriod, n - 3), RowAt(candles, cfg.rsiPeriod, n - 2), cfg)
  }

  /** The detector's answer on its two closed rows. */
  function AnalyzeRows(symbol: string, interval: string, intervalName: string,
                       prev: Row, latest: Row, cfg: Config): Outcome
  {
    match Detect(symbol, interval, intervalName, prev, latest, cfg)
    case Some(d) => Detected(d)
    case None => NoSignal
  }

  /** The HMA of period 200 is first defined at index 212, so `prev` (row
      len-3) has an HMA only when the table has at least 215 rows: tables of
      211 to 214 rows pass the length guard but never yield a detection. A
      detection also always carries a defined price. */
  lemma AnalyzeNeedsWarmup(symbol: string, interval: string, intervalName: string,
                           candles: seq<Candle>, cfg: Config)
    ensures Analyze(symbol, interval, intervalName, candles, cfg).Detected? ==>
              |candles| >= 215 && candles[|candles| - 2].close.Num?
  {
    var o := Analyze(symbol, interval, intervalName, candles, cfg);
    if o.Detected? {
      var n := |candles|;
      var xs := Closes(candles);
      RoundSqrtOf200();
      HmaWarmup(xs, HmaPeriod, n - 3);
      HmaNeedsValue(xs, HmaPeriod, n - 2);
    }
  }

  /** The still-forming last candle never influences the result: two tables
      that differ only in their last row give the same outcome. */
  lemma AnalyzeIgnoresFormingCandle(symbol: string, interval: string, intervalName: string,
                                    closed: seq<Candle>, forming1: Candle, forming2: Candle,
                                    cfg: Config)
    ensures Analyze(symbol, interval, intervalName, closed + [forming1], cfg)
         == Analyze(symbol, interval, intervalName, closed + [forming2], cfg)
  {
    var c1, c2 := closed + [forming1], closed + [forming2];
    if |c1| >= MinRows && cfg.rsiPeriod > 0 {
      ClosedRowsAgree(closed, forming1, forming2, cfg.rsiPeriod);
      AnalyzeSameRows(symbol, interval, intervalName, c1, c2, cfg);
    }
  }

  /** Appending different forming candles leaves rows len-3 and len-2 alike. */
  lemma ClosedRowsAgree(closed: seq<Candle>, forming1: Candle, forming2: Candle, period: nat)
    requires |closed| >= 2 && period >= 1
    ensures RowAt(closed + [forming1], period, |closed| - 2) == RowAt(closed + [forming2], period, |closed| - 2)
    ensures RowAt(closed + [forming1], period, |closed| - 1) == RowAt(closed + [forming2], period, |closed| - 1)
  {
    var c1, c2 := closed + [forming1], closed + [forming2];
    var n := |c1|;
    assert c1[..n - 1] == closed == c2[..n - 1];
    assert c1[..n - 2] == closed[..n - 2] == c2[..n - 2];
    RowAtCausal(c1, c2, period, n - 3);
    RowAtCausal(c1, c2, period, n - 2);
  }

  /** Tables of one length whose rows len-3 and len-2 agree are analysed alike. */
  lemma AnalyzeSameRows(symbol: string, interval: string, intervalName: string,
                        c1: seq<Candle>, c2: seq<Candle>, cfg: Config)
    requires |c1| == |c2| >= MinRows && cfg.rsiPeriod > 0
    requires RowAt(c1, cfg.rsiPeriod, |c1| - 3) == RowAt(c2, cfg.rsiPeriod, |c2| - 3)
    requires RowAt(c1, cfg.rsiPeriod, |c1| - 2) == RowAt(c2, cfg.rsiPeriod, |c2| - 2)
    ensures Analyze(symbol, interval, intervalName, c1, cfg)
         == Analyze(symbol, interval, intervalName, c2, cfg)
  {
    AnalyzeOnRows(symbol, interval, intervalName, c1, cfg);
    AnalyzeOnRows(symbol, interval, intervalName, c2, cfg);
  }

  /** On a long enough table with a valid period, Analyze is AnalyzeRows on
      rows len-3 and len-2. */
  lemma AnalyzeOnRows(symbol: string, interval: string, intervalName: string,
                      candles: seq<Candle>, cfg: Config)
    requires |candles| >= MinRows && cfg.rsiPeriod > 0
    ensures Analyze(symbol, interval, intervalName, candles, cfg)
         == AnalyzeRows(symbol, interval, intervalName, RowAt(candles, cfg.rsiPeriod, |candles| - 3),
                        RowAt(candles, cfg.rsiPeriod, |candles| - 2), cfg)
  {
  }

  /** Row i of the table, indicators included, depends only on rows 0..i. */
  lemma RowAtCausal(c1: seq<Candle>, c2: seq<Candle>, period: nat, i: nat)
    requires period >= 1 && i < |c1| && i < |c2|
    requires c1[..i + 1] == c2[..i + 1]
    ensures RowAt(c1, period, i) == RowAt(c2, period, i)
  {
    var xs, ys := Closes(c1), Closes(c2);
    assert forall k | 0 <= k <= i :: c1[k] == c1[..i + 1][k] == c2[k];
    assert xs[..i + 1] == ys[..i + 1];
    RsiCausal(xs, ys, period, i);
    HmaCausal(xs, ys, HmaPeriod, i);
  }

  /** `format_telegram_alert`'s title: one heading per signal type, and a
      generic heading for a missing or unknown type. */
  function Title(signalType: Option<Signal>, baseCoin: string, intervalName: string): string {
    var tail := baseCoin + " (" + intervalName + ")</b>";
    match signalType
    case Some(OversoldCross) => "🔻 <b>과매도 돌파: " + tail
    case Some(OverboughtCross) => "🔺 <b>과매수 돌파: " + tail
    case Some(HmaAbove) => "📈 <b>HMA 200 상단 돌파: " + tail
    case Some(HmaBelow) => "📉 <b>HMA 200 하단 돌파: " + tail
    case None => "🚨 <b>신호 감지: " + tail
  }

  /** The title names the signal type: different types (the missing type
      included) never share a title. */
  lemma TitleNamesSignalType(a: Option<Signal>, b: Option<Signal>,
                             coinA: string, coinB: string, nameA: string, nameB: string)
    ensures Title(a, coinA, nameA) == Title(b, coinB, nameB) ==> a == b
  {
    var ta, tb := Title(a, coinA, nameA), Title(b, coinB, nameB);
    if ta == tb {
      assert ta[0] == tb[0];
    }
  }
}
