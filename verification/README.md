# Verification of the risk engine's kernels

This project models the deterministic kernels of a trading risk engine in Dafny and proves what they
promise, over all inputs, all runs and all reachable states:

- the **signal-scan backtester**: indicator arrays, the merged timeline, the scan with its positions, trades and
  equity, the forced closes, the equity curve and its drawdown;
- **history reconstruction**: FIFO attribution of closes to opening fills, equity walked back from income
  events with trimming and gap filling, equity snapshots resampled into dense candles, paged fetching;
- the **order protocol**: the order and fill tables, the two snapshots with their stale sweeps, single updates,
  fills, the cache of open orders, and the links of orders and fills to calculations;
- the **position cache**: conflict resolution, snapshots, incremental updates, mark-price ticks, running extremes;
- the **drawdown latch** with its override and entry gate;
- smaller kernels: close rows and average prices, tail risk, lot snapping.

## How it is built

Code that changes things step by step is a method or a class here, proved against a specification function
(`Manager`, `OrderDb`, `DataCache`, `AccountLatch`, `Evaluator`, `CloseBook`, and the loops of the backtester, the
candles, the FIFO matcher and the fetchers). What the system promises is then proved about that function by lemmas,
so a method that skipped a step or took the wrong branch would fail its own contract, and a specification that did
would fail the lemmas.

| file | models |
|---|---|
| `Numerics`, `Sorting` | exact reals, Python's `round` (half to even), `sorted` (stable), filtering |
| `Indicators`, `Backtest`, `BacktestRun` | the backtester's arrays, its step, the run as loops |
| `BacktestCausality`, `BacktestAdmission`, `BacktestBooks`, `BacktestTrades`, `EquityCurve` | its whole-run properties |
| `Candles`, `CandleBuild`, `CandleMerge` | equity candles: meaning, construction, resampling |
| `OpenTimes`, `EquityBackfill`, `IncomePaging`, `OhlcvFetch` | reconstruction from exchange history |
| `OrderTable`, `CalcLinks`, `OrderManager` | the tables, the enrichment, the calls of the order manager |
| `OrderProtocol`, `CalcLinkage`, `OrderFills` | what every run of those calls keeps |
| `PositionCache`, `PositionRuns`, `PositionValues`, `Extremes` | the position cache, what its calls write and what its runs keep |
| `DrawdownLatch` | the drawdown states, the override and the gate |
| `CloseRows`, `CloseRuns` | close rows, their table, and what runs of fills and builds make it add up to |
| `TailRisk`, `LotSize` | value at risk, size snapping |

Amounts are exact reals, `NaN` and `None` are `Option`, times are milliseconds, dates are day numbers. `round` is
modelled exactly; every other float operation is exact. Clocks, exchange replies, the pre-trade log, the order in
which SQL returns rows and the regime classifier are parameters. Ids are strings. A symbol is its position in the
candle map.

## Where the code does not do what it promises

Each of these is stated with an input and, where a caller can check one, the exact condition under which the
promise holds.

- **Look-ahead through the candle gate.** A symbol with fewer than 110 candles is skipped, so later bars decide whether
  bars already warm are scanned at all. The scan is causal exactly when no symbol is admitted late (`RunIsCausal`,
  `CausalExactlyWhen`).
- **Candle limit.** The documented cap of `limit` candles holds exactly for a positive limit: 0 returns everything
  and a negative one drops candles from the front (`LimitHoldsIff`).
- **Drawdown below zero equity.** The single pass shows the worst fall to a point exactly when equity there is not
  negative, or every earlier point of positive equity stands at the peak (`WorstFallExactlyWhen`,
  `NegativeEquityBreaksQuadratic`); below zero it also exceeds 1 (`DrawdownPastOneIff`).
- **Empty fills.** An opening fill of no quantity stays at the head of the queue and lends its time, before other lots
  and also when nothing is open any more. With distinct non-zero opening times a close gets the time the rule gives
  it, 0 when nothing is open included, exactly when the queue is empty or its head has something left; and it does
  however much has been closed exactly when no opening lot is empty (`AttributedExactlyWhen`, `RuleExactlyWhen`,
  `EmptyFillBreaksRule`, `EmptyFillOutlastsClose`). An id several symbols share keeps the time given by the last of
  them that closes under it (`LaterSymbolWins`).
- **Backfill.** The docstring deducts all income later than T, commissions and transfers included; the code deducts
  the profit and funding at T and later. In four decimals the two agree exactly when the profit and funding at T equal
  the later income that is neither (`DocumentedExactlyWhen`, `RecordDocumentedExactlyWhen`, `CommissionNotDeducted`,
  `OwnIncomeDeducted`).
- **Fetching.** An income page boundary between equal timestamps loses events (`CompleteExactlyWhen`, `BurstIsCut`); a
  timeframe text with a negative count can keep the candle loop running, and can leave a hole after the stored candles
  (`TerminatesExactlyWhen`, `TfMsNegative`, `JoinsStoredExactlyWhen`).
- **Reopened orders.** Only transitions of active rows are validated, so reports of a finished order are accepted, by
  snapshots and by single updates alike, although the update call is documented to reject them. The status stays
  exactly when the last report of it that is written, if any, repeats it; a report is written when it is not older than
  what its row has seen (`FinishedStaysExactlyWhen`, `FinishedUpdateStaysExactlyWhen`, `FinishedAlgoStaysExactlyWhen`,
  `NewerReplayReopens`). Inside one batch an id named twice can step back; every write follows the table exactly when
  the reports written follow one another (`DuplicateIdsStepBack`, `WritesFollowExactlyWhen`).
- **Cache after start-up.** A new manager over a table with active orders stays out of agreement through empty basic
  snapshots (`FreshManagerStaysOut`); in general the cache agrees exactly when it did before or some call rebuilt it
  (`SyncedExactlyWhen`).
- **Fill links.** A fill replayed under another order's id takes that order's calculation (`FillCarriesExactlyWhen`,
  `ReplayUnderAnotherOrder`).
- **Filled quantities.** While no report is written over an order, its filled quantity stays the total of its stored
  fills exactly when no fill with a quantity arrives again (`FilledAgreesExactlyWhen`). A written report, of a snapshot
  or an update, puts its own quantity there: from the last one on the order agrees exactly when what that report was
  ahead of the fills stored then, and what has been counted again since, cancel out (`ReportedAgreesExactlyWhen`). So
  a report that has counted a fill already, followed by the fill, counts it twice (`ReportedFillCountsTwice`).
- **Adverse extreme.** 0.0 doubles as "not yet set", so the adverse extreme is the lowest value exactly when that is
  not zero in cents or the last tick reads zero (`MaeIsWorstExactlyWhen`, `SentinelShows`).
- **Close rows.** Rows are stored by exit time and built again as fills come in. Each closing fill is in exactly one stored
  row exactly when no two close orders end at the same instant and no row built before its order's end is left standing
  (`CountedOnceExactlyWhen`, `SameInstantLosesRow`, `RebuildReplacesExactlyWhen`).
- **Entry fees.** Each row takes its share at the entry-fee rate of its own build. When no opening fill arrives after a
  build and no closing fill after its group's, rows of a position not closed beyond what was opened charge the closed
  part of the entry fees, so each fee once exactly when all of it is closed or opening was free (`RunConserves`). After
  one scale-in between closes they do exactly when nothing had been closed before or the rate did not change
  (`ScaleInConservesExactlyWhen`, `ScaleInOvercharges`). The fee cap looks at one row at a time: at a steady rate the
  rows stay within the entry fees exactly when their capped quantities fit what was opened
  (`RowsShareBoundedExactlyWhen`).
- **Duplicate keys.** One new position twice in an incremental batch is listed twice; keys stay unique exactly when no
  batch does that and no snapshot repeats a key (`TwiceInOneBatch`, `KeysStayUniqueExactlyWhen`).
- **Suggested sizes.** A size suggested for the minimum quantity is accepted only if it is on the grid and worth enough
  (`MinQtySuggestionAcceptedIff`, `MinQtySuggestionRejected`).

## Model

| member | source | states |
|---|---|---|
| `Indicators.Ema` | core/backtest_runner.py:75-86 | the loop's array holds at bar i the recurrence of the first i + 1 values, nothing before the seed |
| `Indicators.EmaCausal` | core/backtest_runner.py:75-86 | the average at bar i equals the one recomputed on any prefix that contains bar i |
| `Indicators.EmaWithinRange` | core/backtest_runner.py:75-86 | the average never leaves the range of the values seen |
| `Indicators.EmaMoves` | core/backtest_runner.py:75-86 | the mean of the first values, then each bar moves it by two parts in period + 1 of the distance to its value |
| `Indicators.WilderAtr` | core/backtest_runner.py:89-112 | the loop's array is the smoothed true range, missing until the period is full |
| `Indicators.AtrCausal` | core/backtest_runner.py:89-112 | the true-range average at bar i equals the one recomputed on the prefix |
| `Indicators.AtrNonNegative` | core/backtest_runner.py:89-112 | it is never negative, whatever the bars |
| `Indicators.AtrWithinRange` | core/backtest_runner.py:89-112 | it never leaves the range of the true ranges seen |
| `Indicators.TrueRangeIsSpan` | core/backtest_runner.py:97-103 | a true range is the span of the bar's prices together with the close before it |
| `Indicators.AtrStarts` | core/backtest_runner.py:105-108 | the first average is the mean of the true ranges up to its bar |
| `Indicators.AtrMoves` | core/backtest_runner.py:109-111 | then each bar moves it by one part in `period` of the distance to its true range |
| `Indicators.RollingAvgVol` | core/backtest_runner.py:581-593 | each cell is the mean turnover of up to `window` bars strictly before it |
| `Indicators.AvgVolCausal` | core/backtest_runner.py:581-593 | it equals the one recomputed on the prefix |
| `Indicators.AvgVolIsMean` | core/backtest_runner.py:581-593 | it is the mean of close times volume over the bars before, as many as there are up to the window |
| `Backtest.LookupSignal` | core/backtest_runner.py:607-619 | the binary search returns the value of the last entry dated at or before the day |
| `Backtest.CheckMacroFilters` | core/backtest_runner.py:530-543 | passes exactly when every filter with known data holds |
| `BacktestRun.CheckEntrySignalFast` | core/backtest_runner.py:501-528 | the test on precomputed arrays gives the signal of the recurrences |
| `BacktestRun.BuildTimeline` | core/backtest_runner.py:274-279 | the event list is the stable time-ordered merge of every symbol's bars |
| `BacktestRun.ScanEvent` | core/backtest_runner.py:283-427 | one pass of the loop body is one step of the book on what the bar shows |
| `BacktestRun.CheckExit` | core/backtest_runner.py:300-348 | exits at stop or target with the documented preference when both are hit |
| `BacktestRun.TryEntry` | core/backtest_runner.py:351-416 | every skip and every admission of the entry branch |
| `BacktestRun.ScanTimeline` | core/backtest_runner.py:270-427 | the loop ends in the book of the whole timeline |
| `BacktestRun.CloseRemaining` | core/backtest_runner.py:429-462 | appends one trade per open position at its symbol's last close |
| `BacktestRun.Run` | core/backtest_runner.py:228-462 | fails exactly when no symbol has 110 candles; otherwise reports the scanned and the forced trades |
| `BacktestCausality.ObserveCausal` | core/backtest_runner.py:287-400 | nothing a bar shows the scan depends on later bars or later macro entries |
| `BacktestCausality.TimelinesAgree` | core/backtest_runner.py:275-289 | the merges of a history and its continuation agree on the warm events up to the old end |
| `BacktestCausality.BookAtIsPrefix` | core/backtest_runner.py:283-427 | the book at a time is the book after a prefix of the run's own timeline |
| `BacktestCausality.RunIsCausal` | core/backtest_runner.py:230-427 | later bars and macro entries leave trades, open positions and equity at the old end as they were, unless a symbol is admitted late |
| `BacktestAdmission.CausalExactlyWhen` | core/backtest_runner.py:234-236 | for a concrete strategy, causality on all data of given lengths holds if and only if no symbol passes the 110-candle gate late |
| `BacktestBooks.ScanConserves` | core/backtest_runner.py:283-427 | in every loop state admitted positions are the open ones plus the settled ones, and equity is initial plus exact results |
| `BacktestBooks.EveryAdmissionOneTrade` | core/backtest_runner.py:325-462 | each admitted position is reported as exactly one trade that settles it |
| `BacktestBooks.PositionLimits` | core/backtest_runner.py:351-354 | in every state at most max_position_count positions are open, one per symbol |
| `BacktestBooks.AdmissionWithinExposure` | core/backtest_runner.py:406-427 | at each admission equity is positive and exposure within max_exposure of it |
| `BacktestBooks.AdmissionsRiskBounded` | core/backtest_runner.py:142-165 | for every admission of a run the way from entry to stop costs at most the risked amount |
| `BacktestBooks.StopLossBounded` | core/backtest_runner.py:311-332 | every stop-loss trade loses at most risk_pct·equity·multiplier before fees; R is at least -1 less the fees' share |
| `BacktestBooks.TradesNeverOverlap` | core/backtest_runner.py:283-462 | trades of one symbol never overlap in time |
| `BacktestTrades.SignalIsTurn` | core/backtest_runner.py:501-528 | a long is signalled exactly when the fast average gets above the slow one, a short when it gets below |
| `BacktestTrades.FiltersPassExactlyWhen` | core/backtest_runner.py:530-543 | the filters pass exactly when the latest value of each signal begun by the bar's day meets its comparison |
| `BacktestTrades.LabelIsOfKnown` | core/backtest_runner.py:545-567 | the label is the classifier's answer to the values known then and to dominance a week before, in full mode with open interest or funding |
| `BacktestTrades.CategoriesAre` | core/backtest_runner.py:115-129 | the categories by the long range against a fifth, three fifths and all of the short one |
| `BacktestTrades.SizingOutcome` | core/backtest_runner.py:142-165 | nothing without positive entry, stop and equity apart; else the size whose way to the stop costs its part of the risk, less slippage |
| `BacktestTrades.RunAdmissionsJustified` | core/backtest_runner.py:283-427 | every admission of a run comes from a warm bar where the averages cross its way and all filters are met, with the stop, target and exact size of that bar's ranges and turnover |
| `BacktestTrades.AdmitsExactlyWhen` | core/backtest_runner.py:351-427 | a warm bar opens a position if and only if its symbol holds none, a place is free, it asks for a side, equity is left and the size fits |
| `BacktestTrades.EntryBetweenLevels` | core/backtest_runner.py:380-387 | with positive multiples every entry lies strictly between stop and target, the stop on the losing side |
| `BacktestTrades.TradeResults` | core/backtest_runner.py:325-346 | every reported trade's result with fees added back, times its entry, is its size times the way of the price; PnL and R show it to four decimals |
| `BacktestTrades.UnpricedAndUnrisked` | core/backtest_runner.py:326-332 | without an entry price a trade costs its fees; R times the risk is the result, 0 without a risk |
| `BacktestTrades.TargetsGainStopsLose` | core/backtest_runner.py:308-332 | with positive multiples every take-profit trade gains before fees and every stop-loss trade loses |
| `BacktestTrades.TradesLeaveAtFirstTouch` | core/backtest_runner.py:300-348 | every trade leaves at the first warm bar after its entry that hits stop or target, at the level the rule names; forced ones at the last close, untouched before |
| `EquityCurve.BuildEquityCurve` | core/backtest_runner.py:168-180 | the points are those of the exit-ordered trades |
| `EquityCurve.PeakIsMaximum` | core/backtest_runner.py:168-180 | the running peak is the highest equity so far and was reached |
| `EquityCurve.DrawdownIsWorstFall` | core/backtest_runner.py:168-180 | at a point of non-negative equity the drawdown is the worst fall ending there, in [0, 1] |
| `EquityCurve.WorstFallExactlyWhen` | core/backtest_runner.py:168-180 | a point's drawdown is the worst fall to it if and only if equity there is not negative, or every earlier point of positive equity stands at the peak |
| `EquityCurve.FastDrawdownIsQuadratic` | core/backtest_runner.py:168-195 | while equity stays at or above zero the maximum drawdown is the rounded largest fall over all pairs of points, in [0, 1] |
| `EquityCurve.DrawdownPastOneIff` | core/backtest_runner.py:168-180 | a point's drawdown exceeds 1 exactly when equity there is negative |
| `EquityCurve.NegativeEquityBreaksQuadratic` | core/backtest_runner.py:168-195 | an input below zero where the single pass misses the worst fall |
| `EquityCurve.CurveConserves` | core/backtest_runner.py:418-471 | the last point is within (n + 1)·0.00005 of initial equity plus the exact results of all n trades |
| `EquityCurve.CurveInExitOrder` | core/backtest_runner.py:175-180 | the points ascend in exit time, trades that end together in reported order |
| `CandleBuild.GroupByPeriod` | core/db_analytics.py:290-316 | one raw candle per period that has snapshots |
| `CandleBuild.DensePeriods` | core/db_analytics.py:329-336 | the period starts from the first to the last, one timeframe apart |
| `CandleBuild.JoinCandles` | core/db_analytics.py:338-366 | the anchored, carried-forward candles are those of the dense grid |
| `CandleBuild.GetEquityOhlc` | core/db_analytics.py:277-367 | the result is the last `limit` of the dense candles of the readable snapshots |
| `Candles.DenseCovers` | core/db_analytics.py:329-336 | the grid is aligned and runs from the first snapshot's period to the last one's |
| `Candles.NewestKept` | core/db_analytics.py:367-367 | a positive limit keeps the newest candles, 0 all, a negative one drops from the front |
| `Candles.PointsAreReadable` | core/db_analytics.py:292-307 | the points are the readable rows in their order |
| `CandleMerge.CandleHolds` | core/db_analytics.py:346-366 | low and high enclose open and close; the close is the last snapshot before the period's end |
| `CandleMerge.CandleIsRange` | core/db_analytics.py:309-366 | high and low are the highest and lowest of the open and the snapshots inside the period |
| `CandleMerge.CandlesConnect` | core/db_analytics.py:346-366 | neighbouring candles are one timeframe apart, each opening at the previous close |
| `CandleMerge.WindowMerge` | core/db_analytics.py:309-316 | the candle of a span is the merge of its two halves |
| `CandleMerge.MergeRange` | core/db_analytics.py:289-366 | merging consecutive candles gives the candle of the whole span |
| `CandleMerge.CoarseIsMerge` | core/db_analytics.py:289-366 | each candle at k·tf is the merge of exactly the tf candles that start inside it |
| `OpenTimes.ConsumeLots` | core/exchange_income.py:344-352 | the inner loop takes the quantity off the front of the queue and ends |
| `OpenTimes.MatchDirection` | core/exchange_income.py:328-352 | one direction's pass maps each close to the time of the queue head it met |
| `OpenTimes.CloseOpenTimes` | core/exchange_income.py:324-352 | every symbol's time-ordered fills, longs then shorts, into one dictionary |
| `OpenTimes.QueueIsTail` | core/exchange_income.py:332-352 | whatever the quantities, the queue is a tail of the opening fills, only its head ever being cut |
| `OpenTimes.QueueIsRemainder` | core/exchange_income.py:332-352 | whatever the quantities, its lots are those of the opening fills with the closed ones taken off the front, up to empty lots |
| `OpenTimes.RemainingQuantity` | core/exchange_income.py:332-352 | whatever the quantities, its quantity is what was opened less what was closed |
| `OpenTimes.NothingOpen` | core/exchange_income.py:340-343 | everything opened has been closed exactly when the queue lists empty fills only; with positive opening fills, when it is empty |
| `OpenTimes.AttributedOpen` | core/exchange_income.py:340-341 | a close gets the time of the one opening fill k with cumOpen(k) <= closed < cumOpen(k + 1), unless an empty opening fill precedes one that is not |
| `OpenTimes.AttributedExactlyWhen` | core/exchange_income.py:340-341 | whatever the quantities, with distinct non-zero opening times, a close gets the time of the fill that holds it, or 0 when nothing is open, if and only if the queue is empty or its head is not |
| `OpenTimes.RuleExactlyWhen` | core/exchange_income.py:340-352 | however much has been closed the rule, with 0 when nothing is open, is met if and only if no lot is empty |
| `OpenTimes.OpenBeforeClose` | core/exchange_income.py:326-341 | whatever the quantities, an attributed open time never exceeds the close's time |
| `OpenTimes.OpenTimesNeverDecrease` | core/exchange_income.py:326-341 | whatever the quantities, open times never decrease |
| `OpenTimes.OldestFirst` | core/exchange_income.py:326-327 | fills are matched oldest first, equal times as reported, none lost or added |
| `OpenTimes.EveryCloseAttributed` | core/exchange_income.py:324-352 | for the fills as reported: unless a later symbol closes under its id, a close's entry is the time the rule names for the fills of its symbol before it, exactly when their queue is empty or its head is not; it never exceeds the close's time |
| `OpenTimes.EntriesNeverDecrease` | core/exchange_income.py:324-352 | of two closes of one side the later one never has an earlier entry |
| `OpenTimes.LaterSymbolWins` | core/exchange_income.py:324-341 | an id any number of symbols share keeps the time given by the last of them that closes under it |
| `OpenTimes.EmptyFillBreaksRule` | core/exchange_income.py:337-341 | a zero-quantity opening fill stays at the head and lends its time |
| `OpenTimes.EmptyFillOutlastsClose` | core/exchange_income.py:337-341 | one behind lots that are closed whole stays, and lends its time although nothing is open |
| `EquityBackfill.WalkBack` | core/exchange_income.py:174-195 | the loop's records and transfers, newest first |
| `EquityBackfill.Trim` | core/exchange_income.py:204-210 | keeps the records from the first one at 2% of the highest; never empty |
| `EquityBackfill.TrimMeans` | core/exchange_income.py:204-210 | fifty times the first equity kept reaches every equity, fifty times any dropped stays below some |
| `EquityBackfill.FillGaps` | core/exchange_income.py:215-224 | each record followed by its daily copies up to the next |
| `EquityBackfill.GapIsDaily` | core/exchange_income.py:215-224 | the copies follow day by day up to half a day before the next record |
| `EquityBackfill.BuildEquityBackfill` | core/exchange_income.py:148-226 | empty exactly in the documented cases; otherwise non-empty, ordered and without a gap above a day and a half |
| `EquityBackfill.CashflowIsTransfers` | core/exchange_income.py:184-202 | the cash flow is one record per transfer at which equity is not negative, oldest first |
| `EquityBackfill.TightMeans` | core/exchange_income.py:215-224 | neighbouring records are in order and at most a day and a half apart |
| `EquityBackfill.FilledReaches` | core/exchange_income.py:215-224 | filling ordered records leaves no long gap up to the next record |
| `EquityBackfill.FillingKeepsSteps` | core/exchange_income.py:215-224 | filling never changes the equity in force at any time |
| `EquityBackfill.RecordMeaning` | core/exchange_income.py:181-192 | whatever times coincide, a record plus the profit and funding walked back by its event is current equity, within 0.00005; with distinct times, plus all from its time on |
| `EquityBackfill.EquityInForce` | core/exchange_income.py:181-202 | whatever times coincide, the equity in force at an event's time is current equity less the profit and funding from then on, unless negative |
| `EquityBackfill.FilledEquityInForce` | core/exchange_income.py:200-226 | so it is in the trimmed and filled history, from where that starts |
| `EquityBackfill.DocumentedExactlyWhen` | core/exchange_income.py:154-155 | in four decimals it is current equity less all later income, as documented, if and only if the profit and funding at that very time equal the later income of other kinds |
| `EquityBackfill.RecordDocumentedExactlyWhen` | core/exchange_income.py:154-155 | with distinct times the same of every rebuilt record |
| `EquityBackfill.CommissionNotDeducted` | core/exchange_income.py:154-192 | an input: a later commission is not deducted |
| `EquityBackfill.OwnIncomeDeducted` | core/exchange_income.py:154-155 | an input: the record at an event excludes the event's own income |
| `IncomePaging.FetchIncome` | core/exchange_income.py:113-145 | the loop ends and returns what its pages add up to |
| `IncomePaging.CursorAdvances` | core/exchange_income.py:143-143 | the advanced cursor leaves exactly the strictly later events in range |
| `IncomePaging.CompleteExactlyWhen` | core/exchange_income.py:124-145 | every event of the range comes exactly once if and only if no page boundary splits equal times |
| `IncomePaging.BurstIsCut` | core/exchange_income.py:124-145 | inputs: of more events of one time than a page holds only one page is fetched |
| `OhlcvFetch.FetchLoop` | core/ohlcv_fetcher.py:119-178 | on every reply stream it stops on, the loop returns the count at which the replies stop it |
| `OhlcvFetch.SixthFailureStops` | core/ohlcv_fetcher.py:133-148 | five network failures in a row are retried, the sixth ends the fetch |
| `OhlcvFetch.TfMsNegative` | core/ohlcv_fetcher.py:201-210 | which timeframe texts give a negative length |
| `OhlcvFetch.TfMsIs` | core/ohlcv_fetcher.py:201-210 | minutes, hours, days and weeks by count; an hour where there is no number or unit |
| `OhlcvFetch.TerminatesExactlyWhen` | core/ohlcv_fetcher.py:124-175 | all reply streams end the loop if and only if the length is not negative or nothing is asked for |
| `OrderTable.TerminalIsFinal` | core/order_state.py:21-41 | finished statuses have no way out; active ones lead to a finish, or from new to partially filled |
| `OrderTable.TransitionsAre` | core/order_state.py:21-41 | a new order may go anywhere but back to new, a part-filled one only be filled or canceled |
| `OrderTable.OrderDb.UpsertOrderBatch` | core/db_orders.py:36-105 | rows are inserted, or overwritten when the report is not older, keeping symbol, side, creation time and links |
| `OrderTable.UpsertOutcome` | core/db_orders.py:36-105 | column by column: the report's, unless the row has seen newer; symbol, side, creation time and links stay |
| `OrderTable.BatchIsLocal` | core/db_orders.py:57-75 | a batch changes an id by the orders naming it only |
| `OrderTable.NamedOnce` | core/db_orders.py:57-75 | with distinct ids a row is exactly its own report upserted |
| `OrderTable.OrderDb.MarkStaleOrdersCanceled` | core/db_orders.py:343-398 | cancels the stale rows in scope, counts them, and skips when nothing was seen |
| `OrderTable.SweptChangesStale` | core/db_orders.py:378-398 | the rows whose status a sweep changes are exactly the active ones in scope and not seen |
| `OrderTable.AlgoPrefix` | core/db_orders.py:369-377 | algo ids are those that read `algo:` in front, whatever their case |
| `OrderTable.OrderDb.UpsertFillAndUpdateOrder` | core/db_orders.py:267-341 | fill row and parent order after one commit |
| `OrderTable.FillOutcome` | core/db_orders.py:267-318 | the fill's row: latest figures; order named, closing flag and link of the first arrival |
| `OrderTable.FilledOutcome` | core/db_orders.py:319-338 | its order: quantities add up and the average is weighted with them |
| `OrderTable.OrderDb.GetActiveOrdersMap` | core/db_orders.py:525-533 | exactly the active rows under a non-empty id |
| `OrderTable.OrderDb.QueryOpenOrdersAll` | core/db_orders.py:535-544 | every active row once, newest creation first |
| `OrderManager.Manager.ProcessOrderSnapshot` | core/order_manager.py:37-88 | table and cache after a basic snapshot, early return included |
| `OrderManager.Manager.ProcessAlgoSnapshot` | core/order_manager.py:92-121 | table and cache after an algo snapshot |
| `OrderManager.Manager.ProcessOrderUpdate` | core/order_manager.py:125-164 | rejects exactly the invalid transitions of active orders; otherwise upserts, enriches the order and its parent, rebuilds the cache |
| `OrderManager.Manager.ProcessFill` | core/order_manager.py:565-601 | writes fill and parent and propagates the link; the cache stays |
| `OrderManager.Manager.RefreshCache` | core/order_manager.py:508-515 | the cache becomes a listing of the active rows |
| `OrderProtocol.BasicFollowsTransitions` | core/order_manager.py:47-88 | a basic snapshot, sweep included, moves an active order along a valid transition or not at all, even when ids repeat |
| `OrderProtocol.WritesFollow` | core/order_manager.py:50-68 | with distinct ids so does every single write of the batch |
| `OrderProtocol.DuplicateIdsStepBack` | core/order_manager.py:50-68 | an id named twice is written filled, then partially filled |
| `OrderProtocol.WritesFollowExactlyWhen` | core/order_manager.py:50-68 | every write of a batch follows the table if and only if the reports written, id by id and from the stored row on, follow one another |
| `OrderProtocol.LifecycleMovesForward` | core/order_state.py:21-41 | over every run in which replays of finished orders are older, a basic order's later status is its earlier one or a valid successor |
| `OrderProtocol.FinishedStaysExactlyWhen` | core/db_orders.py:73-74 | through a basic snapshot, however often it names the order, a finished order keeps its status exactly when the last report of it that is written, if any, repeats it |
| `OrderProtocol.FinishedUpdateStaysExactlyWhen` | core/order_manager.py:125-164 | an update of a finished order is always accepted, and the status stays exactly when it is older than the row or repeats the status |
| `OrderProtocol.FinishedAlgoStaysExactlyWhen` | core/order_manager.py:92-121 | the same through an algo snapshot |
| `OrderProtocol.NewerReplayReopens` | core/db_orders.py:73-74 | a report without a time turns a filled order new again |
| `OrderProtocol.ListedOutcome` | core/order_manager.py:50-85 | the row of a listed order: its report, unless the transition is invalid or the row newer; never swept |
| `OrderProtocol.MissingOutcome` | core/order_manager.py:70-85 | a row missing from a non-empty snapshot is canceled if it is an active basic order, untouched otherwise |
| `OrderProtocol.ActiveAreListed` | core/order_manager.py:70-85 | after a non-empty snapshot the active basic ids are a subset of its ids |
| `OrderProtocol.ActiveAlgosAreListed` | core/order_manager.py:106-117 | the same for algo orders, an empty snapshot included |
| `OrderProtocol.SnapshotsCommute` | core/db_orders.py:369-398 | a basic and an algo snapshot leave the same table in either order |
| `OrderProtocol.UnrefreshedKeepsStatuses` | core/order_manager.py:565-601 | calls that leave the cache alone leave the active ids and statuses alone |
| `OrderProtocol.SyncedExactlyWhen` | core/order_manager.py:44-45 | after any run the cache shows exactly the active ids and statuses if and only if it did before or some call rebuilt it |
| `OrderProtocol.FreshManagerStaysOut` | core/order_manager.py:44-45 | empty snapshots never bring a new manager's cache into agreement |
| `CalcLinks.CorrelateOrderToCalc` | core/calc_correlation.py:23-140 | the loop returns the first fitting row of the ordered candidates |
| `CalcLinks.CorrelationIsNewestUnused` | core/calc_correlation.py:97-140 | none exactly when no row of the last day is within tolerance and unused; otherwise the most recent such row |
| `CalcLinks.PopulateTriggerPrices` | core/order_enrichment.py:47-89 | the triggers of the last child of each kind, earlier values kept where no child has one |
| `CalcLinks.TriggerIsLastChilds` | core/order_enrichment.py:63-80 | a trigger is found exactly when some child of the position has one, and is that of the last such child |
| `CalcLinkage.TriggersTaken` | core/order_enrichment.py:47-89 | enrichment writes an entry order's two triggers only, each what the last child of its position shows |
| `CalcLinks.TryCorrelate` | core/order_enrichment.py:95-153 | the link is written only to an unlinked entry order with both triggers |
| `CalcLinkage.CorrelationLinks` | core/order_enrichment.py:95-172 | an entry order with both triggers and no link takes the newest unused calculation of the day before within a tick, if there is one; nothing else changes |
| `CalcLinks.ReEnrichParent` | core/order_manager.py:204-234 | a stop or target order re-enriches the first entry order of its position |
| `CalcLinkage.ChildReachesParent` | core/order_manager.py:204-234 | once a stop or target order is written its position's entry order knows the trigger |
| `CalcLinks.PropagateCalcIdToFill` | core/order_enrichment.py:176-210 | copies the link of the order the fill names, to an unlinked fill only |
| `CalcLinkage.FillTakesLink` | core/order_enrichment.py:176-210 | a processed fill takes its order's link exactly when that has one and the fill has none |
| `CalcLinks.CalcLinkConfirm` | api/routes_admin.py:246-293 | each refusal in turn; otherwise the order and all its fills are linked |
| `CalcLinkage.ConfirmedExactlyWhen` | api/routes_admin.py:246-293 | accepted exactly for an unlinked order and an unused link, and then links the order and each of its fills |
| `CalcLinkage.LinksWrittenOnceAndUnique` | core/order_enrichment.py:146-149 | over every interleaving an order's link is written once and no two orders share one |
| `CalcLinkage.FillCarriesExactlyWhen` | core/order_enrichment.py:182-208 | processing a fill keeps fills with their orders' links if and only if it names its stored order or nothing is propagated |
| `CalcLinkage.FillsCarryTheirOrdersLink` | core/order_enrichment.py:182-208 | over every interleaving of such calls a linked fill carries, and keeps, its order's link |
| `CalcLinkage.ProcessedFillsCarryLink` | core/order_enrichment.py:176-210 | over every such run a fill processed while its order was linked carries that link to the end |
| `CalcLinkage.ReplayUnderAnotherOrder` | core/db_orders.py:121-131 | a replay naming another, linked order gives the fill a foreign link |
| `CalcLinkage.LinkedMeansNewestMatch` | core/order_enrichment.py:122-153 | an order is linked to the newest unused calculation within tolerance, or there is none |
| `PositionCache.DataCache.ApplyPositionSnapshot` | core/data_cache.py:219-281 | rejected, or the list, version, closed events and new tickers of a full snapshot |
| `PositionCache.DataCache.ApplyPositionUpdateIncremental` | core/data_cache.py:314-410 | list, balance, versions, closed events and new tickers of an incremental update |
| `PositionCache.DataCache.ApplyMarkPrice` | core/data_cache.py:739-793 | positions, extremes and account aggregates after a tick |
| `PositionCache.DataCache.ApplyAccountUpdateRest` | core/data_cache.py:646-681 | rejected, or the account after a REST report |
| `PositionCache.DataCache.ApplyAccountUpdatePlatform` | core/data_cache.py:683-708 | the account after the platform's report, always accepted |
| `PositionValues.TickOutcome` | core/data_cache.py:747-761 | after a mark a position of the ticker shows price, value and amount times the way from its average; no other changes |
| `PositionValues.SnapshotTakes` | core/data_cache.py:204-252 | a listed position is its report with the old metadata, id and unrealized PnL where these are kept |
| `PositionValues.SnapshotInEntryOrder` | core/data_cache.py:266-266 | a snapshot leaves positions in entry order |
| `PositionValues.UpdateChanges` | core/data_cache.py:352-397 | column by column what a change makes of a listed, a new and a closed key |
| `PositionValues.VersionsMove` | core/data_cache.py:638-643 | which version an accepted call moves, and to which source and time |
| `PositionValues.ReportsTaken` | core/data_cache.py:660-705 | the account's figures after a report of the exchange or the platform |
| `PositionValues.ExtremesMove` | core/data_cache.py:473-479 | the equity extremes and baselines after each accepted call |
| `PositionValues.ExtremesAreReached` | core/data_cache.py:473-479 | over any run with positive equity they are the highest and lowest of the start and of all equities since |
| `PositionRuns.SnapshotOutcome` | core/data_cache.py:242-266 | keys after a snapshot are the snapshot's, each with the old metadata carried over |
| `PositionRuns.BatchOutcome` | core/data_cache.py:352-397 | with distinct keys each named key is closed, changed or opened as its change says; no other key changes |
| `PositionRuns.KeysStayUniqueExactlyWhen` | core/data_cache.py:219-397 | for any batch, keys stay unique if and only if a snapshot lists no key twice and an incremental batch opens no new key twice |
| `PositionRuns.TwiceInOneBatch` | core/data_cache.py:352-397 | a new key twice in a batch is listed twice |
| `PositionRuns.ClosedExactlyGone` | core/data_cache.py:256-265 | closed events name exactly the keys before and not after, each once |
| `PositionRuns.NewTickersExactlyOpened` | core/data_cache.py:270-276 | the new tickers reported are exactly those of keys after and not before |
| `PositionRuns.LifeAlternates` | core/data_cache.py:219-410 | over any run openings and closed events of a key alternate, and it is listed exactly after an opening |
| `PositionRuns.EntryTimeConstant` | core/data_cache.py:205-208 | while a key stays listed its entry time is constant |
| `PositionRuns.VersionCountsUpdates` | core/data_cache.py:196-201 | over any run the version rises by the number of accepted updates |
| `PositionRuns.RejectedExactlyWhen` | core/data_cache.py:159-194 | rejected, changing and closing nothing, exactly for an unforced REST report inside the priority window |
| `PositionRuns.LiveStateProtected` | core/data_cache.py:181-192 | until the window is over no sequence of unforced REST snapshots changes websocket or platform state |
| `PositionRuns.TickAggregates` | core/data_cache.py:763-791 | after a tick with positive balance: unrealized is the sum, equity is balance plus it but at least 0, margin within [0, equity] |
| `PositionRuns.EquityWithinExtremes` | core/data_cache.py:473-479 | once a call has been accepted equity lies between the recorded extremes for the rest of the run |
| `Extremes.MfeIsBest` | core/data_cache.py:757-759 | the favourable extreme is round2(max(0, best tick)) although compared with rounded values |
| `Extremes.MaeIsWorstExactlyWhen` | core/data_cache.py:760-761 | the adverse extreme is round2(lowest tick) exactly when that is not zero or the last tick reads zero |
| `Extremes.MaeIsWorstLoss` | core/data_cache.py:760-761 | for a losing position it is the worst loss |
| `Extremes.SentinelShows` | core/data_cache.py:760-761 | a position that only gained reports a positive adverse extreme |
| `Extremes.RunExtremes` | core/data_cache.py:205-215 | over any run an open position's metadata is what it was opened with, changed by its ticks since and by nothing else |
| `Extremes.OpenedAsBrought` | core/data_cache.py:242-266 | a position enters with what the snapshot reports, or blank |
| `Extremes.BroughtExtremes` | core/data_cache.py:757-761 | extremes a position came with count like ticks: the highest, and below zero the lowest, of them all |
| `Extremes.OpenPositionExtremes` | core/data_cache.py:739-761 | for any open position of any run that was opened without extremes: best tick and worst loss since opening |
| `PositionValues.ExtremesComeFromPrices` | core/data_cache.py:752-761 | an extreme that is not the one opened with is what some mark since then gained the position, in cents |
| `PositionValues.ExtremesNeedPrices` | core/data_cache.py:752-761 | with a positive amount the favourable one rises only by a price on the position's side of its average, the adverse one turns negative only by one on the other |
| `DrawdownLatch.ComputeRollingDrawdown` | core/dd_state.py:22-51 | the loop's peak and drawdown of the window |
| `DrawdownLatch.PeakIsHighest` | core/dd_state.py:42-46 | the peak is the highest equity of the window and the current one |
| `DrawdownLatch.DrawdownIsShare` | core/dd_state.py:48-51 | drawdown lies in [0, 1] for non-negative equity |
| `DrawdownLatch.DrawdownIsLost` | core/dd_state.py:48-51 | of a positive peak it is the share lost down to the current equity, else 0 |
| `DrawdownLatch.SeenIsFallInWindow` | core/dd_state.py:41-51 | what a tick sees is the fall to it from the highest equity at most a window old |
| `DrawdownLatch.AccountLatch.Recalculate` | core/data_cache.py:500-566 | states, peak and override after a recalculation |
| `DrawdownLatch.ShownIsLatest` | core/data_cache.py:500-566 | an account shows its last evaluation, or ok without thresholds; only evaluations move the latch |
| `DrawdownLatch.AccountLatch.Grant` | api/routes_accounts.py:552-586 | each refusal in turn; an override is granted exactly with a reason of ten characters, in limit and only once |
| `DrawdownLatch.PeakIsWorstSinceOk` | core/dd_state.py:94-113 | in every reachable state the stored peak is the largest drawdown since the last ok evaluation |
| `DrawdownLatch.LimitLeftExactlyOnRecovery` | core/dd_state.py:100-104 | limit is left exactly at dd <= worst·(1 - recovery), worst being that of the episode with dd, and to ok; never at a drawdown as bad as the worst |
| `DrawdownLatch.EpisodeLastsExactlyWhen` | core/dd_state.py:94-104 | over any further run an episode lasts if and only if no evaluation comes down to that part of the worst by then |
| `DrawdownLatch.LimitEnteredExactlyAtThreshold` | core/dd_state.py:54-67 | outside limit: limit exactly from its threshold on, warning exactly between the two thresholds |
| `DrawdownLatch.BounceExactlyWhen` | core/dd_state.py:100-113 | at unchanged drawdown recovery falls back exactly when it is at or above the limit, never if worst·(1 - recovery) is below it |
| `DrawdownLatch.NextEpisodeBlocks` | core/data_cache.py:533-536 | an override is gone before the next episode: entering limit blocks enforced new entries |
| `DrawdownLatch.OverrideHolds` | core/dd_gate.py:36-38 | within its episode an override keeps letting entries through |
| `DrawdownLatch.GrantUnblocksExactlyWhen` | api/routes_accounts.py:552-586 | a grant unblocks a blocking account exactly with a reason of ten characters |
| `DrawdownLatch.ExitsAlwaysPass` | core/dd_gate.py:70-97 | orders that reduce, close or protect are never blocked |
| `DrawdownLatch.Evaluator.Evaluate` | core/dd_state.py:143-162 | the closure's history, peak and state after each call |
| `DrawdownLatch.FeedEvaluator` | core/dd_state.py:119-162 | the evaluator fed its own answers over a series of equities |
| `DrawdownLatch.EvaluatorRunIsLatchRun` | core/dd_state.py:143-162 | over any such series it is in the state and at the peak of the account's latch |
| `OrderFills.RunningAverageIsVwap` | core/db_orders.py:319-338 | over every run in which no report is written over a fresh order, its quantity and average are the total and VWAP of its fills |
| `OrderFills.RunningNotional` | core/db_orders.py:319-338 | from any start its quantity grows by the total of its fills, and quantity at average price by their notional |
| `OrderFills.ReportedNotional` | core/db_orders.py:57-75 | so over every run with a written report, from the last one's quantity and average on |
| `OrderFills.VwapWithin` | core/order_manager.py:619-627 | a VWAP lies between any bounds on the prices traded |
| `OrderFills.CountedOnceExactlyWhen` | core/db_orders.py:319-338 | an arriving fill adds to its order what it adds to the stored fills if and only if nothing is stored under its id |
| `OrderFills.AheadGrows` | core/db_orders.py:267-338 | over every run without a written report, from any start, an order gets ahead of its stored fills by what is counted again |
| `OrderFills.FilledAgreesExactlyWhen` | core/db_orders.py:267-338 | so it stays equal to them if and only if no fill with a quantity arrives again |
| `OrderFills.ReportedAgreesExactlyWhen` | core/db_orders.py:57-75 | over every run with a written report, of a snapshot or an update, it agrees if and only if the last report's quantity less what was stored then, and what is counted again since, come to nothing |
| `OrderFills.ReportedFillCountsTwice` | core/db_orders.py:57-75 | a first fill the report has counted already is counted twice |
| `CloseRows.CloseBook.Record` | core/db_orders.py:267-318 | the stored fills of a position after a fill arrives, replays included |
| `CloseRows.RecordedOutcome` | core/db_orders.py:267-318 | a fill stored already takes the new figures and keeps order and closing flag; a new one comes last |
| `CloseRows.CloseBook.MakeRow` | core/order_manager.py:619-705 | VWAPs, times, capped share of the entry fees, fees and net of one row |
| `CloseRows.CloseBook.BuildCloseRowForFill` | core/order_manager.py:605-726 | the row of the fill's order from the fills stored by then, stored by exit time; nothing without closing fills |
| `CloseRows.RowMeans` | core/order_manager.py:619-705 | prices that make up the notional of both sides, first opening and last closing time, net is realized less fees |
| `CloseRows.FeesMean` | core/order_manager.py:664-682 | a row's own part of the entry fees is that of the quantity closed in the quantity opened, at most all |
| `CloseRows.RowShareBounded` | core/order_manager.py:665-681 | one row charges between nothing and the entry fees, all of them from a full close on |
| `CloseRows.TwoFullClosesChargeTwice` | core/order_manager.py:665-681 | two full closes charge the entry fees twice |
| `CloseRows.RebuildReplacesExactlyWhen` | core/db_orders.py:157-161 | a rebuilt row replaces the earlier one exactly when the exit time is unchanged |
| `CloseRuns.RunsAreSound` | core/order_manager.py:593-726 | over every run of arrivals and builds each stored row is what it was made of, a part of the fills, and a group waiting for no build has been built whole |
| `CloseRuns.CountedOnceExactlyWhen` | core/db_orders.py:183-185 | once all deferred builds are made, each closing fill is in exactly one stored row if and only if no two close orders end at one instant and no early row stands |
| `CloseRuns.RowsTotal` | core/order_manager.py:662-705 | whatever the run, the stored rows charge the closing fees and entry shares they were made of; net is realized less those |
| `CloseRuns.ClosingConserved` | core/order_manager.py:662-705 | under that condition they hold all closing fees, realized PnL and closed quantity, each once |
| `CloseRuns.PartitionConserves` | core/order_manager.py:662-705 | at a steady entry-fee rate, rows that close exactly what was opened hold all fees once, and net is realized less all fees |
| `CloseRuns.RowsSeeAllOpens` | core/order_manager.py:619-640 | over every run in which no opening fill arrives after a build, each stored row is made of all opening fills |
| `CloseRuns.RowsSeeAllCloses` | core/order_manager.py:605-640 | over every run in which no closing fill arrives after its group's build, each stored row is made of its whole group |
| `CloseRuns.RunConserves` | core/order_manager.py:593-705 | over such runs, exits apart and not closed beyond what was opened: all closing fees and the closed part of the entry fees; every fee once if and only if all is closed or opening was free |
| `CloseRuns.ScaleInConservesExactlyWhen` | core/order_manager.py:619-682 | with one scale-in between closes, fees are conserved if and only if nothing was closed before it or the rate stayed |
| `CloseRuns.ScaleInOvercharges` | core/order_manager.py:619-682 | open 10 for 10, close 5, add 10 for nothing, close 15: the rows charge 12.5 |
| `CloseRuns.SameInstantLosesRow` | core/db_orders.py:157-161 | of two close orders ending at one instant the first row is gone |
| `CloseRuns.CappedIsClosed` | core/order_manager.py:665-676 | what the rows close is the whole closed quantity when none closes more than was open at its build |
| `CloseRuns.RowsShareBoundedExactlyWhen` | core/order_manager.py:665-681 | at a steady rate the stored rows stay within the entry fees if and only if their capped quantities fit what was opened |
| `TailRisk.IndexInRange` | core/analytics.py:139-143 | every non-negative confidence indexes one of the returns; only one below 0 can raise |
| `TailRisk.VarIsQuantile` | core/analytics.py:133-143 | at most k returns are worse than value at risk and more than k no better, k from the confidence |
| `TailRisk.ShortfallOfTail` | core/analytics.py:146-155 | expected shortfall is the mean of the returns no better than value at risk |
| `TailRisk.SmallSamples` | core/analytics.py:133-155 | both are 0 for fewer than twenty returns |
| `TailRisk.ShortfallBelowVar` | core/analytics.py:133-155 | expected shortfall never exceeds value at risk, which is one of the returns |
| `TailRisk.RiskMonotone` | core/analytics.py:133-155 | raising the confidence lowers or keeps both |
| `LotSize.SnapDown` | core/contract_validation.py:169-173 | snapping never adds, loses less than a step, and is idempotent |
| `LotSize.AcceptedIsStable` | core/contract_validation.py:143-200 | an accepted size is accepted again unchanged |
| `LotSize.AcceptedExactlyWhen` | core/contract_validation.py:169-200 | accepted exactly when the snapped size reaches both minimums that are set; else the first missed is named |
| `LotSize.SuggestionAccepted` | core/contract_validation.py:183-196 | the size suggested for the minimum notional is always accepted unchanged |
| `LotSize.SuggestionIsLeast` | core/contract_validation.py:183-196 | the suggestion is the least size of the grid worth more than the minimum |
| `LotSize.MinQtySuggestionAcceptedIff` | core/contract_validation.py:175-181 | the size suggested for the minimum quantity is accepted exactly when on the grid and worth enough |
| `LotSize.MinQtySuggestionRejected` | core/contract_validation.py:175-181 | an input: a minimum off the grid is suggested and rejected again |

## Left out

- Routes, templates, streaming, the platform plugin, exchange adapters, SQL parsing, migrations, credentials and logging: transport and storage; only resulting table updates are modelled, and statements succeed.
- asyncio scheduling, the deferred close row, publishing and swallowed exceptions: each handler is one atomic step.
- Float and decimal precision beyond `round`; quantities matched FIFO are whole lots where the code compares with 1e-8.
- Several accounts, account switching (`clear`) and the legacy drawdown fallback: one account with readable settings.
- Rows with a NULL order or fill id: adapters supply text ids; the empty id is modelled.
- `CalcLinks.CalcLinkConfirm`: finds the row by its exchange id where the endpoint uses the row number; row numbers are not modelled.
- `OrderProtocol.LifecycleMovesForward`: covers basic orders; algo snapshots are not validated by the code, so algo rows follow no table.
- TP/SL enrichment of positions, trade events, modification events and slippage classification: reads for display, no state kept.
- `CloseRows.CloseBook.BuildCloseRowForFill`: one position; exit reason, shortfall, hold time and link of a row are not modelled, nor is the safety net that builds rows for unrecorded fills beyond being one more build.
- `CloseRuns.RunsAreSound`: a fill that arrives twice arrives unchanged.
- `CloseRuns.CountedOnceExactlyWhen`: a fill that arrives twice arrives unchanged; a correction of a stored fill after its row was built is not followed.
- `OrderManager.Manager.ProcessFill`: the closing flag is taken as given, where the source derives it from the position; the position's fees are not stored; the deferred close row is `CloseRuns`.
- `Indicators.Ema`: periods below 1; at 0 and -1 the source divides by zero, further down it fills cells from the end by negative indices.
- `PositionCache.DataCache.ApplyMarkPrice`: exposure per sector, daily and weekly PnL, their baselines and TP/SL totals of the portfolio are not modelled; the drawdown state is in `DrawdownLatch`.
- `Extremes.RunExtremes`: the restoring of extremes from stored candles after a restart (`core/exchange.py`) is not part of this model.
- `PositionCache.DataCache.ApplyPositionSnapshot`: positions are values, so sharing of position objects between the incoming list and the cache is not captured.
- `CandleBuild.GetEquityOhlc`: the cash-flow column of candles and the parsing of timestamp text (unreadable rows are `None`).
- `BacktestRun.Run`: statistics of the summary (Sharpe, Sortino, R statistics, regime breakdown), progress reports and the loading queries; exit times stay milliseconds.
- `BacktestAdmission.CausalExactlyWhen`: the converse is shown for one strategy; another may trade so little that late admission never shows.
- `OhlcvFetch.FetchLoop`: the range query before the loop and waiting between retries; it is stated for the streams it stops on, and `OhlcvFetch.TerminatesExactlyWhen` says when that is all of them.
- Journal aggregates, calendar grid, funding exposure, beta and the other analytics; the plugin's historical merge of fills.
