/** The `RSICrossoverBot` scan with its exactly-once-per-candle ledger. The
    bot visits every configured (symbol, interval) pair in order, runs the
    detector on the fetched table, and alerts a detection only when the key
    `symbol_interval_timestamp` of its candle is not yet in `alert_history`;
    the key is recorded before delivery is attempted, whatever delivery
    reports. The market data and the transport's answers are inputs. */
module Crossover {
  import opened Base
  import opened Detector

  /** What the kline fetch of one pair gives the detector: a table (possibly
      empty, which is what an API error yields), or an exception. */
  datatype Fetch = Fetched(candles: seq<Candle>) | FetchRaised

  /** How the scan reports one alert's delivery: sent, refused by the
      transport, or no notifier connected for the interval. */
  datatype Delivery = Sent | SendFailed | NoNotifier

  /** One pair visited by the scan, with the world's answers for it. */
  datatype Visit = Visit(symbol: string, interval: string, intervalName: string,
                         fetch: Fetch, sendOk: bool)

  /** The ledger and the scan's output so far. */
  datatype ScanState = ScanState(history: set<string>, alerts: seq<Detection>,
                                 deliveries: seq<Delivery>)

  /** `_alert_key`: the candle time is rendered as text, a missing time as
      the empty string. */
  function AlertKey(symbol: string, interval: string, candleTime: Option<string>): string {
    symbol + "_" + interval + "_" + candleTime.GetOr("")
  }

  /** The ledger key of a detection's candle. */
  function KeyOf(d: Detection): string {
    AlertKey(d.symbol, d.interval, Some(d.datetime))
  }

  /** Keys of a list of alerts. */
  function KeysOf(ds: seq<Detection>): set<string> {
    set i | 0 <= i < |ds| :: KeyOf(ds[i])
  }

  /** `analyze_symbol_interval` on one visit: an exception during the fetch
      surfaces as `Raised`. */
  function Evaluate(v: Visit, cfg: Config): (o: Outcome)
    ensures o.Detected? ==> o.detection.symbol == v.symbol && o.detection.interval == v.interval
  {
    match v.fetch
    case FetchRaised => Raised
    case Fetched(candles) => Analyze(v.symbol, v.interval, v.intervalName, candles, cfg)
  }

  /** The report for an alert on `interval`. */
  function DeliveryOf(interval: string, notifiers: set<string>, sendOk: bool): Delivery {
    if interval !in notifiers then NoNotifier else if sendOk then Sent else SendFailed
  }

  /** What the scan does with the outcome of one pair: a detection whose key
      is new is recorded, alerted and reported; anything else, including an
      exception, leaves the state unchanged and the loop goes on. */
  function Record(notifiers: set<string>, s: ScanState, v: Visit, o: Outcome): ScanState {
    match o
    case Detected(d) =>
      var key := AlertKey(v.symbol, v.interval, Some(d.datetime));
      if key in s.history then s
      else ScanState(s.history + {key}, s.alerts + [d],
                     s.deliveries + [DeliveryOf(v.interval, notifiers, v.sendOk)])
    case NoSignal => s
    case Raised => s
  }

  /** One iteration of the scan's inner loop. */
  function Step(cfg: Config, notifiers: set<string>, s: ScanState, v: Visit): ScanState {
    Record(notifiers, s, v, Evaluate(v, cfg))
  }

  /** The scan as a left fold of Step over the visits, in order. */
  function Run(cfg: Config, notifiers: set<string>, s: ScanState, vs: seq<Visit>): ScanState
    decreases |vs|
  {
    if vs == [] then s
    else Step(cfg, notifiers, Run(cfg, notifiers, s, vs[..|vs| - 1]), vs[|vs| - 1])
  }

  /** The visits for one symbol, one per configured interval. */
  function RowVisits(symbol: string, intervals: seq<(string, string)>,
                     fetches: seq<Fetch>, oks: seq<bool>): (vs: seq<Visit>)
    requires |fetches| == |intervals| && |oks| == |intervals|
    ensures |vs| == |intervals|
  {
    seq(|intervals|, j requires 0 <= j < |intervals| =>
          Visit(symbol, intervals[j].0, intervals[j].1, fetches[j], oks[j]))
  }

  /** Every symbol has one answer per interval. */
  predicate Shaped<T>(grid: seq<seq<T>>, rows: nat, cols: nat) {
    |grid| == rows && forall i | 0 <= i < |grid| :: |grid[i]| == cols
  }

  /** The visits of the first `count` symbols, symbol by symbol and, within a
      symbol, interval by interval. */
  function Visits(symbols: seq<string>, intervals: seq<(string, string)>,
                  market: seq<seq<Fetch>>, sendOk: seq<seq<bool>>, count: nat): seq<Visit>
    requires count <= |symbols|
    requires Shaped(market, |symbols|, |intervals|) && Shaped(sendOk, |symbols|, |intervals|)
  {
    if count == 0 then []
    else Visits(symbols, intervals, market, sendOk, count - 1)
         + RowVisits(symbols[count - 1], intervals, market[count - 1], sendOk[count - 1])
  }

  /** Folding one more visit is one more Step. */
  lemma RunSnoc(cfg: Config, notifiers: set<string>, s: ScanState, vs: seq<Visit>, v: Visit)
    ensures Run(cfg, notifiers, s, vs + [v]) == Step(cfg, notifiers, Run(cfg, notifiers, s, vs), v)
  {
    assert (vs + [v])[..|vs|] == vs;
  }

  /** Folding one more visit of a row. */
  lemma RunExtends(cfg: Config, notifiers: set<string>, s: ScanState, done: seq<Visit>,
                   row: seq<Visit>, n: nat)
    requires n < |row|
    ensures Run(cfg, notifiers, s, done + row[..n + 1])
         == Step(cfg, notifiers, Run(cfg, notifiers, s, done + row[..n]), row[n])
  {
    assert done + row[..n + 1] == (done + row[..n]) + [row[n]];
    RunSnoc(cfg, notifiers, s, done + row[..n], row[n]);
  }

  /** The ledger after a scan that started with history h and produced state
      r: the new keys are exactly those of the returned alerts, none of them
      was in h, no two alerts share a key, and every alert has one delivery
      report. */
  ghost predicate LedgerAgrees(h: set<string>, r: ScanState) {
    && r.history == h + KeysOf(r.alerts)
    && (forall i | 0 <= i < |r.alerts| :: KeyOf(r.alerts[i]) !in h)
    && (forall i, j | 0 <= i < j < |r.alerts| :: KeyOf(r.alerts[i]) != KeyOf(r.alerts[j]))
    && |r.deliveries| == |r.alerts|
  }

  /** Recording an outcome of the visited pair keeps the ledger in agreement
      with the alerts. */
  lemma RecordKeepsLedger(notifiers: set<string>, h: set<string>, p: ScanState, v: Visit, o: Outcome)
    requires LedgerAgrees(h, p)
    requires o.Detected? ==> o.detection.symbol == v.symbol && o.detection.interval == v.interval
    ensures LedgerAgrees(h, Record(notifiers, p, v, o))
  {
    if o.Detected? {
      var key := AlertKey(v.symbol, v.interval, Some(o.detection.datetime));
      assert key == KeyOf(o.detection);
      if key !in p.history {
        KeysOfSnoc(p.alerts, o.detection);
        var alerts := p.alerts + [o.detection];
        assert forall i | 0 <= i < |p.alerts| :: alerts[i] == p.alerts[i];
      }
    }
  }

  /** Appending an alert adds its key. */
  lemma KeysOfSnoc(ds: seq<Detection>, d: Detection)
    ensures KeysOf(ds + [d]) == KeysOf(ds) + {KeyOf(d)}
  {
    var e := ds + [d];
    forall key | key in KeysOf(e) ensures key in KeysOf(ds) + {KeyOf(d)} {
      var i :| 0 <= i < |e| && KeyOf(e[i]) == key;
      if i < |ds| {
        assert e[i] == ds[i];
      }
    }
    forall key | key in KeysOf(ds) ensures key in KeysOf(e) {
      var i :| 0 <= i < |ds| && KeyOf(ds[i]) == key;
      assert e[i] == ds[i];
    }
    assert e[|ds|] == d;
  }

  /** A scan that starts with history h and no output keeps the ledger in
      agreement with its alerts. */
  lemma {:induction false} RunLedger(cfg: Config, notifiers: set<string>, h: set<string>, vs: seq<Visit>)
    ensures LedgerAgrees(h, Run(cfg, notifiers, ScanState(h, [], []), vs))
    decreases |vs|
  {
    if vs == [] {
      assert KeysOf([]) == {};
    } else {
      var front := vs[..|vs| - 1];
      RunLedger(cfg, notifiers, h, front);
      var v := vs[|vs| - 1];
      RecordKeepsLedger(notifiers, h, Run(cfg, notifiers, ScanState(h, [], []), front), v, Evaluate(v, cfg));
    }
  }

  /** Every detection made during the scan ends up in the ledger, whatever
      the other pairs yielded or raised; one whose key was not in the ledger
      before the scan is among the returned alerts. */
  lemma {:induction false} RunRecordsDetections(cfg: Config, notifiers: set<string>, h: set<string>,
                                                vs: seq<Visit>, k: nat)
    requires k < |vs| && Evaluate(vs[k], cfg).Detected?
    ensures var r := Run(cfg, notifiers, ScanState(h, [], []), vs);
            var key := KeyOf(Evaluate(vs[k], cfg).detection);
            && key in r.history
            && (key !in h ==> key in KeysOf(r.alerts))
    decreases |vs|
  {
    var front := vs[..|vs| - 1];
    RunLedger(cfg, notifiers, h, vs);
    if k < |vs| - 1 {
      RunRecordsDetections(cfg, notifiers, h, front, k);
      RunGrows(cfg, notifiers, Run(cfg, notifiers, ScanState(h, [], []), front), vs[|vs| - 1]);
    }
  }

  /** A step never removes a key. */
  lemma RunGrows(cfg: Config, notifiers: set<string>, s: ScanState, v: Visit)
    ensures s.history <= Step(cfg, notifiers, s, v).history
  {
  }

  /** Every returned alert is the detection of one of the visited pairs. */
  lemma {:induction false} RunAlertsAreDetections(cfg: Config, notifiers: set<string>, h: set<string>,
                                                  vs: seq<Visit>, i: nat)
    requires i < |Run(cfg, notifiers, ScanState(h, [], []), vs).alerts|
    ensures exists k | 0 <= k < |vs| :: Evaluate(vs[k], cfg) == Detected(Run(cfg, notifiers, ScanState(h, [], []), vs).alerts[i])
    decreases |vs|
  {
    var front := vs[..|vs| - 1];
    var p := Run(cfg, notifiers, ScanState(h, [], []), front);
    if i < |p.alerts| {
      RunAlertsAreDetections(cfg, notifiers, h, front, i);
      var k :| 0 <= k < |front| && Evaluate(front[k], cfg) == Detected(p.alerts[i]);
      assert vs[k] == front[k];
    } else {
      assert Evaluate(vs[|vs| - 1], cfg) == Detected(Run(cfg, notifiers, ScanState(h, [], []), vs).alerts[i]);
    }
  }

  /** Exactly once per candle: a second scan, over any data, never alerts a
      key the first scan alerted, and a second scan over the same data alerts
      nothing at all. */
  lemma ExactlyOncePerCandle(cfg: Config, notifiers: set<string>, h: set<string>,
                             first: seq<Visit>, second: seq<Visit>)
    ensures var r1 := Run(cfg, notifiers, ScanState(h, [], []), first);
            var r2 := Run(cfg, notifiers, ScanState(r1.history, [], []), second);
            && KeysOf(r1.alerts) !! KeysOf(r2.alerts)
            && (second == first ==> r2.alerts == [])
  {
    var r1 := Run(cfg, notifiers, ScanState(h, [], []), first);
    var r2 := Run(cfg, notifiers, ScanState(r1.history, [], []), second);
    RunLedger(cfg, notifiers, h, first);
    RunLedger(cfg, notifiers, r1.history, second);
    if second == first && r2.alerts != [] {
      RunAlertsAreDetections(cfg, notifiers, r1.history, second, 0);
      var k :| 0 <= k < |second| && Evaluate(second[k], cfg) == Detected(r2.alerts[0]);
      RunRecordsDetections(cfg, notifiers, h, first, k);
      assert false;
    }
  }

  /** Delivery never feeds back into the ledger: scans that differ only in
      what the transport answered record the same keys and return the same
      alerts. */
  lemma {:induction false} RunIgnoresDelivery(cfg: Config, notifiers: set<string>, s: ScanState,
                                              vs: seq<Visit>, ws: seq<Visit>)
    requires |vs| == |ws|
    requires forall k | 0 <= k < |vs| :: vs[k].(sendOk := true) == ws[k].(sendOk := true)
    ensures Run(cfg, notifiers, s, vs).history == Run(cfg, notifiers, s, ws).history
    ensures Run(cfg, notifiers, s, vs).alerts == Run(cfg, notifiers, s, ws).alerts
    decreases |vs|
  {
    if vs != [] {
      var n := |vs|;
      RunIgnoresDelivery(cfg, notifiers, s, vs[..n - 1], ws[..n - 1]);
      assert vs[n - 1].(sendOk := true) == ws[n - 1].(sendOk := true);
      assert Evaluate(vs[n - 1], cfg) == Evaluate(ws[n - 1], cfg);
    }
  }

  /** With '_' in neither symbols nor intervals, the key determines the pair
      and the candle: different candles of one pair never share a key. */
  lemma AlertKeyInjective(s1: string, i1: string, t1: string, s2: string, i2: string, t2: string)
    requires '_' !in s1 && '_' !in s2 && '_' !in i1 && '_' !in i2
    requires AlertKey(s1, i1, Some(t1)) == AlertKey(s2, i2, Some(t2))
    ensures s1 == s2 && i1 == i2 && t1 == t2
  {
    assert AlertKey(s1, i1, Some(t1)) == s1 + "_" + (i1 + "_" + t1);
    assert AlertKey(s2, i2, Some(t2)) == s2 + "_" + (i2 + "_" + t2);
    SplitAtSeparator(s1, i1 + "_" + t1, s2, i2 + "_" + t2);
    SplitAtSeparator(i1, t1, i2, t2);
  }

  /** Position of the first '_' in s, or |s| when there is none. */
  function SeparatorAt(s: string): (n: nat)
    ensures n <= |s|
  {
    if s == [] || s[0] == '_' then 0 else 1 + SeparatorAt(s[1..])
  }

  /** The first '_' of a + "_" + b is the one after a. */
  lemma {:induction false} SeparatorAfter(a: string, b: string)
    requires '_' !in a
    ensures SeparatorAt(a + "_" + b) == |a|
  {
    if a != [] {
      assert (a + "_" + b)[1..] == a[1..] + "_" + b;
      SeparatorAfter(a[1..], b);
    }
  }

  /** Text before the first '_' is determined by the whole. */
  lemma SplitAtSeparator(a: string, b: string, c: string, d: string)
    requires '_' !in a && '_' !in c
    requires a + "_" + b == c + "_" + d
    ensures a == c && b == d
  {
    var x := a + "_" + b;
    SeparatorAfter(a, b);
    SeparatorAfter(c, d);
    assert a == x[..|a|] == c;
    assert b == x[|a| + 1..] == d;
  }

  /** The bot's configuration and its ledger `alert_history`, whose values are
      always `True`, so a set of keys. */
  class RsiCrossoverBot {
    const symbols: seq<string>
    const intervals: seq<(string, string)>
    const cfg: Config
    /** Intervals that have a connected notifier. */
    const notifiers: set<string>
    var alertHistory: set<string>

    constructor (symbols: seq<string>, intervals: seq<(string, string)>, cfg: Config,
                 notifiers: set<string>)
      ensures this.symbols == symbols && this.intervals == intervals
      ensures this.cfg == cfg && this.notifiers == notifiers
      ensures alertHistory == {}
    {
      this.symbols := symbols;
      this.intervals := intervals;
      this.cfg := cfg;
      this.notifiers := notifiers;
      alertHistory := {};
    }

    /** `already_alerted_for_candle`. */
    predicate AlreadyAlertedForCandle(symbol: string, interval: string, candleTime: Option<string>)
      reads this
    {
      AlertKey(symbol, interval, candleTime) in alertHistory
    }

    /** `scan`: `market[i][j]` and `sendOk[i][j]` are what the fetch and the
        transport answer for symbol i and interval j. */
    method Scan(market: seq<seq<Fetch>>, sendOk: seq<seq<bool>>)
      returns (alerts: seq<Detection>, deliveries: seq<Delivery>)
      requires Shaped(market, |symbols|, |intervals|) && Shaped(sendOk, |symbols|, |intervals|)
      modifies this
      ensures ScanState(alertHistory, alerts, deliveries)
           == Run(cfg, notifiers, ScanState(old(alertHistory), [], []),
                  Visits(symbols, intervals, market, sendOk, |symbols|))
    {
      ghost var start := ScanState(alertHistory, [], []);
      alerts, deliveries := [], [];
      for si := 0 to |symbols|
        invariant ScanState(alertHistory, alerts, deliveries)
               == Run(cfg, notifiers, start, Visits(symbols, intervals, market, sendOk, si))
      {
        var symbol := symbols[si];
        ghost var done := Visits(symbols, intervals, market, sendOk, si);
        ghost var row := RowVisits(symbol, intervals, market[si], sendOk[si]);
        assert done + row[..0] == done;
        for ii := 0 to |intervals|
          invariant ScanState(alertHistory, alerts, deliveries)
                 == Run(cfg, notifiers, start, done + row[..ii])
        {
          var (interval, intervalName) := intervals[ii];
          var visit := Visit(symbol, interval, intervalName, market[si][ii], sendOk[si][ii]);
          assert visit == row[ii];
          var outcome := Evaluate(visit, cfg);
          ghost var before := ScanState(alertHistory, alerts, deliveries);
          if outcome.Detected? && !AlreadyAlertedForCandle(symbol, interval, Some(outcome.detection.datetime)) {
            var result := outcome.detection;
            alerts := alerts + [result];
            alertHistory := alertHistory + {AlertKey(symbol, interval, Some(result.datetime))};
            deliveries := deliveries + [DeliveryOf(interval, notifiers, sendOk[si][ii])];
          }
          assert ScanState(alertHistory, alerts, deliveries) == Record(notifiers, before, row[ii], outcome);
          RunExtends(cfg, notifiers, start, done, row, ii);
        }
        assert row[..|intervals|] == row;
      }
    }
  }
}
