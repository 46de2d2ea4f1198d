# RSI / HMA 200 crossover alerts — a Dafny model

The system watches Bybit klines for a few symbols (BTCUSDT, ETHUSDT) on
several intervals. It sends a Telegram alert when the RSI crosses into
oversold or overbought territory, or when the closing price crosses the
200-period Hull moving average. Each closed candle is alerted at most once.

This project models four parts of it and proves properties of each:

- **indicators.dfy** (`Indicators`): the `TechnicalIndicators` series
  transforms. WMA is a rolling dot product with weights 1..n. HMA is
  WMA(2·WMA(n // 2) − WMA(n), round(√n)). RSI uses pandas' adjusted
  exponentially weighted mean with `alpha = 1/period` and
  `min_periods = period`. A pandas NaN is an explicit `Val.NaN`, and every
  comparison involving it is false.
- **detector.dfy** (`Detector`): `analyze_symbol_interval` after the table
  has been fetched.
  - The guard: fewer than 211 rows means no detection.
  - The two closed rows it reads, `prev` = len−3 and `latest` = len−2.
  - The NaN check, the four crossing tests in order, the `signal_type`
    precedence and `hma_position`.
  - The title choice of `format_telegram_alert`.
- **crossover_bot.dfy** (`Crossover`): the class `RsiCrossoverBot` with its
  `alertHistory` ledger, `_alert_key` and `already_alerted_for_candle`.
  - `Scan` is the nested loop over symbols and intervals. It is proved equal
    to a left fold (`Run`) of one step per pair.
  - The ledger properties are lemmas about that fold.
- **telegram_updates.dfy** (`TelegramUpdates`): `get_group_ids`
  (get_chat_id.py) as a loop method with a set of seen ids, proved equal to
  a recursive specification `Groups`. `TelegramNotifier.get_chat_id` is a
  newest-first search (`LatestFrom`), linked to `Groups` by lemmas.

Inputs from the outside world are parameters:
- the fetched kline table of each pair (or an exception),
- whether the transport delivered each alert,
- the decoded `getUpdates` answer (or a failed request).

Three observations about the code that the proofs make precise:
- **RSI warm-up.** The RSI is NaN before index `period − 1` (`RsiRange`).
  `where` replaces the missing first difference by 0, so index 0 already
  counts as an observation for `min_periods`. The averages are therefore
  defined from index `period − 1`, not `period` (`EwMean`). From there the
  RSI is defined unless both averages are 0 (`RsiOf`), as on flat prices.
  On strictly rising or falling prices it is 100 or 0 (`RsiOfRisingPrices`,
  `RsiOfFallingPrices`).
- **Length guard.** The guard at alert_coin.py:121 admits tables of 211
  rows; its comment asks only for two closed candles plus the indicator
  history. The HMA of period 200 is first defined at index 212
  (200 + 14 − 2), so `prev` has an HMA only when the table has at least 215
  rows. Tables of 211 to 214 rows always yield nothing, through the NaN check
  (`AnalyzeNeedsWarmup`). The output is never wrong, only the guard is
  looser than it appears.
- **RSI crossings.** The two RSI crossings exclude each other for any
  thresholds, not only when oversold < overbought (`CrossingsExclusive`).

## Model

| member | source | states |
|---|---|---|
| Indicators.WeightSum | alert_coin.py:82-84 | The divisor `weights.sum()` of a non-empty window is at least 1, so the WMA division is always defined |
| Indicators.DotBetween | alert_coin.py:82-84 | A dot product with weights 1..n of values in [lo, hi] lies between lo and hi times the weight sum |
| Indicators.WmaDefinedness | alert_coin.py:83-85 | WMA at i is a number iff i ≥ period − 1 and the whole window is numbers |
| Indicators.WmaBetween | alert_coin.py:83-85 | A defined WMA lies within the bounds of its window's values |
| Indicators.WmaOfConstant | alert_coin.py:80-85 | On a constant series, WMA is NaN before index period − 1 and the constant from there on |
| Indicators.WmaPeriodOne | alert_coin.py:80-85 | WMA of period 1 is the identity on the series, NaN included |
| Indicators.WmaCausal | alert_coin.py:83-85 | WMA at i depends only on the values at indices ≤ i |
| Indicators.RoundSqrt | alert_coin.py:91 | The result k is round(√n): (k − ½)² ≤ n < (k + ½)², and k ≥ 1 for n ≥ 1 |
| Indicators.RoundSqrtUnique | alert_coin.py:91 | Any k with those bounds is the rounded square root, so the rounding is well defined |
| Indicators.RoundSqrtOf200 | alert_coin.py:91 | `sqrt_period` is 14 for the HMA period 200 |
| Indicators.HullRawDefinedness | alert_coin.py:92-94 | `2·wma_half − wma_full` is a number iff both WMAs are numbers |
| Indicators.HmaWarmup | alert_coin.py:88-95 | HMA at i is NaN for i < period + sqrt_period − 2; on NaN-free input it is a number exactly from there on |
| Indicators.HmaNeedsValue | alert_coin.py:88-95 | A defined HMA at i implies the price at i is a number |
| Indicators.HmaOfConstant | alert_coin.py:88-95 | On a constant series, every defined HMA value is that constant |
| Indicators.HmaCausal | alert_coin.py:88-95 | HMA at i depends only on prices at indices ≤ i |
| Indicators.Gains | alert_coin.py:72 | The gain series has the price series' length and is never negative |
| Indicators.Losses | alert_coin.py:73 | The loss series has the price series' length and is never negative |
| Indicators.GainLossSplit | alert_coin.py:71-73 | Gain and loss are ≥ 0, at most one is non-zero, and gain − loss equals the price change. Both are 0, never NaN, where the change is NaN (index 0 included) |
| Indicators.Decay | alert_coin.py:74-75 | The weight decay 1 − 1/period lies in [0, 1) for every valid period |
| Indicators.EwDenom | alert_coin.py:74-75 | The adjusted EW mean's denominator is at least 1 |
| Indicators.EwMean | alert_coin.py:74-75 | The EW mean is defined iff at least `period` observations have been seen, and it is non-negative on non-negative input |
| Indicators.EwNumerNonNegative | alert_coin.py:74-75 | The EW numerator of non-negative values is non-negative |
| Indicators.EwNumerBetween | alert_coin.py:74-75 | The EW numerator of values in [lo, hi] lies between lo and hi times the denominator |
| Indicators.EwMeanBetween | alert_coin.py:74-75 | A defined EW mean lies within the bounds of the averaged values |
| Indicators.EwMeanPositive | alert_coin.py:74-75 | A positive latest value after non-negative ones gives a positive EW mean |
| Indicators.EwNumerCausal | alert_coin.py:74-75 | The EW numerator at t depends only on values at indices ≤ t |
| Indicators.RsiOf | alert_coin.py:76-77 | RSI from the averages is NaN iff both are 0. Otherwise it lies in [0, 100] and RSI·(G + L) = 100·G, so it is 100 when L = 0 and 0 when G = 0 |
| Indicators.RsiRange | alert_coin.py:69-77 | RSI is NaN before index period − 1, and every defined value lies in [0, 100] |
| Indicators.RsiOfRisingPrices | alert_coin.py:69-77 | On strictly rising prices, RSI is 100 wherever it is defined |
| Indicators.RsiOfFallingPrices | alert_coin.py:69-77 | On strictly falling prices, RSI is 0 wherever it is defined |
| Indicators.RsiCausal | alert_coin.py:69-77 | RSI at t depends only on prices at indices ≤ t |
| Detector.RemoveAll | alert_coin.py:175 | `base_coin` is never longer than the symbol and equals it when "USDT" does not occur |
| Detector.RemoveQuoteSuffix | alert_coin.py:175 | For a symbol that is a coin name free of "USDT" followed by "USDT", `base_coin` is exactly the coin name ("BTCUSDT" gives "BTC") |
| Detector.Detect | alert_coin.py:139-186 | A detection has defined indicators. It carries the arguments' symbol, interval and name, `latest`'s timestamp and close, both RSI values and `latest`'s HMA |
| Detector.CrossingsExclusive | alert_coin.py:146-165 | The oversold and overbought crossings never fire together, and neither do the two HMA crossings |
| Detector.DetectSignals | alert_coin.py:142-168 | A result is returned iff the indicators are defined and some condition fires. `signals` lists exactly the fired conditions in evaluation order (one or two). `signal_type` is the first of them, so it is an RSI kind iff an RSI crossing fired |
| Detector.DetectPosition | alert_coin.py:171 | `hma_position` is above iff close > HMA. An upward HMA crossing reports above and a downward one below |
| Detector.Analyze | alert_coin.py:121-140 | An invalid RSI period raises iff the length guard has passed. A detection needs ≥ 211 rows, echoes symbol and interval, and carries row len−2's timestamp and close |
| Detector.AnalyzeNeedsWarmup | alert_coin.py:121-140 | A detection needs at least 215 rows and a defined latest close |
| Detector.AnalyzeIgnoresFormingCandle | alert_coin.py:129-131 | Tables that differ only in their last, still-forming row give the same outcome |
| Detector.RowAtCausal | alert_coin.py:124-127 | A row's close, RSI and HMA depend only on the rows up to it |
| Detector.TitleNamesSignalType | alert_coin.py:195-206 | Different signal types, the missing type included, never get the same title |
| Crossover.Evaluate | alert_coin.py:230-231 | A detection for a visited pair carries that pair's symbol and interval |
| Crossover.RecordKeepsLedger | alert_coin.py:232-234 | Recording one pair's outcome keeps the ledger equal to the old keys plus the keys of the alerts, all new and pairwise distinct |
| Crossover.RunLedger | alert_coin.py:232-234 | After a scan, the ledger is the old ledger plus exactly the returned alerts' keys. None of those keys was in the old ledger, no two alerts share a key, and each alert has one delivery report |
| Crossover.RunRecordsDetections | alert_coin.py:228-251 | Every detection of the scan ends up in the ledger, whatever other pairs yield or raise. One whose key was new is among the returned alerts |
| Crossover.RunAlertsAreDetections | alert_coin.py:231-233 | Every returned alert is the detection of one of the visited pairs |
| Crossover.ExactlyOncePerCandle | alert_coin.py:188-191 | A later scan over any data never alerts a key an earlier scan alerted. Repeating a scan on the same data alerts nothing |
| Crossover.RunIgnoresDelivery | alert_coin.py:234-247 | The key is recorded whatever the transport answers: scans that differ only in delivery success have the same ledger and alerts |
| Crossover.AlertKeyInjective | alert_coin.py:107-110 | With no '_' in symbols and intervals, equal keys mean equal symbol, interval and candle time |
| Crossover.RsiCrossoverBot.constructor | alert_coin.py:101-105 | The bot starts with the given configuration and an empty ledger |
| Crossover.RsiCrossoverBot.Scan | alert_coin.py:223-253 | The new ledger, the returned alerts and the delivery reports are the fold of the per-pair step over the pairs in configuration order, starting from the old ledger |
| TelegramUpdates.ChatOf | get_chat_id.py:26-30 | An update with a message yields the message's chat; one with neither envelope yields none |
| TelegramUpdates.GroupsOfReply | get_chat_id.py:14-21 | A failed request, a falsy `ok` or a missing `result` yields the empty list |
| TelegramUpdates.GetGroupIds | get_chat_id.py:11-45 | The loop with its seen-id set returns exactly the specified group list of the reply |
| TelegramUpdates.GroupsAreGroups | get_chat_id.py:32 | Every entry's type is "group" or "supergroup" |
| TelegramUpdates.GroupIdsAreSeen | get_chat_id.py:25-40 | The entries' ids are exactly the ids of the group chats among the updates |
| TelegramUpdates.GroupsDistinct | get_chat_id.py:33-40 | No two entries share an id |
| TelegramUpdates.GroupsPrefix | get_chat_id.py:25-40 | The list for a prefix of the updates is a prefix of the list: entries are only appended |
| TelegramUpdates.FirstOccurrenceEntry | get_chat_id.py:33-40 | The first update carrying a group chat id contributes that chat's entry, with title "?" when it has none, right after the entries of earlier updates |
| TelegramUpdates.FirstOccurrencesInOrder | get_chat_id.py:25-40 | The entries of two first occurrences appear in the order of their updates |
| TelegramUpdates.GroupsOnlySeeChats | get_chat_id.py:26-30 | The list depends only on each update's selected chat |
| TelegramUpdates.MessageShadowsMember | get_chat_id.py:27-30 | When an update has a message, changing its `my_chat_member` part changes nothing |
| TelegramUpdates.LatestGroupChatId | alert_coin.py:302-320 | An id is found only when `ok` holds and `result` is a non-empty list |
| TelegramUpdates.LatestIsNewestGroup | alert_coin.py:308-317 | A found id belongs to the newest group chat of the updates, so `get_group_ids` also lists it |
| TelegramUpdates.LatestFindsGroup | alert_coin.py:308-317 | On well-formed updates, an id is found iff some update is about a group chat |

## Left out

- `BybitAPI.get_kline` (HTTP, JSON parsing, `to_numeric`, reversal to oldest-first) is not part of this model. The detector receives the resulting table, or an exception, as input. Only the timestamp and close columns are modelled, and the timestamp is the text `str()` renders.
- `TelegramNotifier.send_message`, `test_connection` and the retry without `parse_mode` are network I/O. Each alert's delivery is an input boolean, and the scan reports it as sent, failed or no notifier.
- The message text of `format_telegram_alert` beyond its title (number formatting with `:.1f`/`:.2f`, the signal lines) and all logging are not modelled. The signal descriptions are the `Signal` kinds.
- `run`'s endless loop, `time.sleep` and `KeyboardInterrupt` handling are scheduling, and the `__main__` blocks (configuration and environment loading, printing, merging chat ids across bots) are process set-up.
- Floating point is exact real arithmetic with an explicit NaN. Rounding error, infinities other than the RSI's L = 0 case, and `np.sqrt` precision are not modelled.
- Indicators.RoundSqrt: rounds the exact square root. Python's `round(np.sqrt(n))` agrees, because √n is never exactly half-way between integers.
- Detector.Analyze: `rsi_period` ≤ 0 becomes the single outcome `Raised`. The model does not distinguish pandas' `alpha` error from `ZeroDivisionError`, and non-integer periods are not modelled.
- TelegramUpdates.GetGroupIds: updates, envelopes and chats are typed records. JSON values of the wrong shape make the Python code raise and return `[]`, which is not modelled. A JSON `null` and an absent key are both `None`.
- TelegramUpdates.LatestGroupChatId: returns the integer id rather than its `str()` rendering.
- Time-keyed cooldown ledgers and Bollinger-band detectors have no code in this system, so there is nothing to model.
