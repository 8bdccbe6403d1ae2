# One-minute candlestick aggregator

A Dafny model of the candlestick engine of a quote-streaming service. The engine keeps, for
each instrument (identified by its ISIN), the one-minute OHLC candles of the last thirty
minutes. It has two operations:

- `addQuote` records a price. It truncates the clock to the minute. It then opens a new
  candle, or folds the price into the last candle: the price becomes the close and widens
  high and low. Finally it prunes the series to the candles that opened after "now − 30 min".
- `getCandlesticks` walks the minutes from "now − 30 min" to "now" inclusive. A minute with
  a stored candle emits that candle. A quiet minute emits a copy of the most recent stored
  candle, moved to that minute. Nothing is emitted before the first stored candle in the
  window.

The model is functional. A candle is an immutable `Candle` value. The store is a
`map<string, seq<Candle>>`. Instants are whole seconds since the epoch. Prices are `real`.
The clock is an explicit `now` argument of both operations.

Modules:

- `Wrappers` (`wrappers.dfy`): the `Option` type returned by the search for a minute's candle.
- `Candles` (`candles.dfy`): time and minute truncation, the candle record, opening,
  folding and re-timing a candle.
- `Series` (`series.dfy`): one instrument's series. Holds the front-to-back search, the
  open-or-update step (`Absorb`), pruning, their composition (`Record`) and the series
  invariant (`WellFormed`).
- `Window` (`window.dfy`): the 31-minute walk of a query, and `IsWindowView`, a
  declarative description of its result. The walk is proved to be the only sequence that
  fits the description.
- `CandlestickManager` (`manager.dfy`): the store, `AddQuote`, `GetCandlesticks`, replaying
  any sequence of quotes, and the scenarios of the source's unit tests.

Two consequences of the code are worth stating:

- **Gap-filled entries keep all four prices.** `CandlestickManagerImpl.kt:28` copies the
  last stored candle and changes only its timestamps, so a quiet minute repeats that
  candle's open, high, low and close. `Window.EntryCopiesLatestStored` states this.
- **Candles cannot be appended out of order.** A candle is created with
  `close = open + 1 min` (`CandlestickManagerImpl.kt:46-47`), and a new one is opened only
  when `close <= now` (`:43`). So a new candle opens at least a minute after the last one,
  and a quote from an earlier minute is folded into the last candle instead.
  `Series.AbsorbPreservesWellFormed` and `CandlestickManager.ReplayWellFormed` prove the
  strict ordering for every sequence of clock readings, including a clock that steps
  backwards.

A query is a function of the store and does not return a store. It therefore cannot change
the store, and two queries with the same arguments return the same result.

## Model

| member | source | states |
|---|---|---|
| Candles.TruncMinute | src/main/kotlin/CandlestickManagerImpl.kt:39 | The truncated instant is a multiple of 60 s, at or before `t`, and less than a minute before it. This is the floor, also before the epoch. |
| Candles.OpenCandle | src/main/kotlin/CandlestickManagerImpl.kt:45-52 | A new candle opens at the minute and closes one minute later. Its open, high, low and close are all the quoted price. |
| Candles.Fold | src/main/kotlin/CandlestickManagerImpl.kt:57-61 | Folding keeps both timestamps and the open price. The close becomes the price. High and low are the max and min of the old bound and the price. |
| Candles.Retime | src/main/kotlin/CandlestickManagerImpl.kt:28 | The gap-fill copy covers [t, t + 1 min) and has exactly the same four prices as the copied candle. |
| Candles.FoldWellFormed | src/main/kotlin/CandlestickManagerImpl.kt:57-61 | Folding keeps low ≤ open ≤ high and low ≤ close ≤ high. The folded price lies within the new low/high. |
| Series.Find | src/main/kotlin/CandlestickManagerImpl.kt:22 | Returns a stored candle opening at `t`. It returns nothing exactly when no stored candle opens at `t`. |
| Series.FindReturnsFirst | src/main/kotlin/CandlestickManagerImpl.kt:22 | The returned candle is the first in the list that opens at `t`; its position is given. |
| Series.FindUnique | src/main/kotlin/CandlestickManagerImpl.kt:22 | On an ordered series, the search for a candle's open time returns that very candle. |
| Series.Absorb | src/main/kotlin/CandlestickManagerImpl.kt:41-63 | Empty series, or last close ≤ minute: appends one candle for the minute with O=H=L=C=price. Otherwise: earlier candles unchanged, timestamps and open kept, close = price, high/low widened to include it. |
| Series.Prune | src/main/kotlin/CandlestickManagerImpl.kt:66-67 | The pruned series holds exactly the candles whose open is strictly after the cutoff, and is never longer. |
| Series.PruneOrderedIsSuffix | src/main/kotlin/CandlestickManagerImpl.kt:67 | On an ordered series, pruning keeps a suffix: candles are evicted only from the front. |
| Series.Record | src/main/kotlin/CandlestickManagerImpl.kt:39-67 | After a quote, a candle is stored exactly when it is in the absorbed series and opened after minute − 30 min. |
| Series.AbsorbPreservesWellFormed | src/main/kotlin/CandlestickManagerImpl.kt:43-61 | Well-formed series stay well formed: aligned one-minute buckets, low/high bounds, strictly increasing opens. This holds for any minute, including one before the last candle. |
| Series.PruneKeepsLast | src/main/kotlin/CandlestickManagerImpl.kt:67 | On an ordered series whose last candle is newer than the cutoff, pruning keeps that candle, and keeps it last. |
| Series.AbsorbLastIsRecent | src/main/kotlin/CandlestickManagerImpl.kt:43-61 | The candle a quote opened or updated opened less than a minute before the quote's minute, or later. |
| Series.PrunePreservesWellFormed | src/main/kotlin/CandlestickManagerImpl.kt:66-67 | Pruning keeps the series well formed. |
| Series.RecordPreservesWellFormed | src/main/kotlin/CandlestickManagerImpl.kt:43-67 | After a quote the series is well formed and non-empty. Its last candle is the one the quote opened or updated: pruning never drops it. |
| Series.RecordFirstQuote | src/main/kotlin/CandlestickManagerImpl.kt:40-53 | The first quote for an instrument yields a series with one candle, opened by that quote. |
| Series.RecordSameMinute | src/main/kotlin/CandlestickManagerImpl.kt:55-61 | A quote in the minute of a lone candle folds into it; no candle is added. |
| Series.RecordAfterWindow | src/main/kotlin/CandlestickManagerImpl.kt:66-67 | A quote 30 minutes or more after a lone candle opened leaves only the new candle. |
| Series.RecordEndsAtMinute | src/main/kotlin/CandlestickManagerImpl.kt:39-61 | If no stored candle is later than the quote's minute, the series ends with a candle for that minute whose close is the quoted price. |
| Window.QueryIsWindowView | src/main/kotlin/CandlestickManagerImpl.kt:13-31 | Size of the walk's result: at most 31 entries, consecutive minutes ending at the current one. Content: it starts at the window's first stored candle; stored minutes appear verbatim; a quiet minute repeats the previous entry moved to that minute. |
| Window.WindowViewUnique | src/main/kotlin/CandlestickManagerImpl.kt:19-31 | At most one sequence fits that description. |
| Window.QueryCharacterization | src/main/kotlin/CandlestickManagerImpl.kt:13-31 | A sequence is the query result if and only if it fits the window-view description. |
| Window.EntryCopiesLatestStored | src/main/kotlin/CandlestickManagerImpl.kt:19-29 | Every entry has the four prices of the latest stored candle at or before its minute. No stored candle lies between them. Only stored candles, never copies, are copied. |
| Window.WindowViewEntriesAreBuckets | src/main/kotlin/CandlestickManagerImpl.kt:28 | On a well-formed series, every query entry is a minute-aligned one-minute bucket. |
| Window.QueryEndsWithCurrent | src/main/kotlin/CandlestickManagerImpl.kt:21-25 | If a stored candle opens in the current minute, the query is non-empty and ends with that candle, unchanged. |
| CandlestickManager.AddQuote | src/main/kotlin/CandlestickManagerImpl.kt:37-68 | The instrument gains an entry and other instruments are untouched. The entry is the recorded series, and no candle in it opened at or before minute − 30 min. |
| CandlestickManager.GetCandlesticks | src/main/kotlin/CandlestickManagerImpl.kt:10-35 | An unknown instrument yields the empty sequence. Otherwise the result has at most 31 entries and is the window view of the stored series at the truncated clock. |
| CandlestickManager.AddQuotePreservesWellFormed | src/main/kotlin/CandlestickManagerImpl.kt:37-68 | A well-formed store stays well formed. The instrument's series is non-empty and ends with the candle the quote opened or updated. |
| CandlestickManager.ReplayWellFormed | src/main/kotlin/CandlestickManagerImpl.kt:37-68 | From an empty store, any sequence of quotes at any clock readings leaves every series well formed. This includes strictly increasing opens. |
| CandlestickManager.ReplayKeys | src/main/kotlin/CandlestickManagerImpl.kt:40 | After any sequence of quotes, the instruments with an entry are exactly those some quote named. |
| CandlestickManager.FirstQuoteShowsOneCandle | src/test/kotlin/MainTest.kt:59-72 | A fresh instrument's query is empty. After one quote, a query in the same minute shows exactly the candle that quote opened. |
| CandlestickManager.SameMinuteQuotesFold | src/test/kotlin/MainTest.kt:75-94 | Two quotes in one minute show one candle: open = first price, close = second price, high = max, low = min. |
| CandlestickManager.QuietMinutesRepeatLastCandle | src/test/kotlin/MainTest.kt:97-114 | One quote, then a query d ≤ 30 minutes later. The query shows d + 1 entries, one per minute from the quote's minute, each with O=H=L=C=price. |
| CandlestickManager.DistantQuotesPruneOlder | src/main/kotlin/CandlestickManagerImpl.kt:66-67 | Two quotes at least 30 minutes apart leave only the second quote's candle stored. |
| CandlestickManager.QueryAfterQuoteEndsWithIt | src/main/kotlin/CandlestickManagerImpl.kt:21-25 | If the clock has not stepped back, a query right after a quote ends with the quote's candle for the current minute, closing at the quoted price. |

## Left out

- Logging (`logger.info`) and JSON serialisation of candles and timestamps: they are side
  effects and formatting, with no effect on the stored data.
- Thread safety: the source shares an unsynchronised map between the quote feed and the
  request path. The model is single-threaded.
- Aliasing: `getCandlesticks` hands out the stored mutable candle objects, which a later
  `addQuote` updates in place. Candles here are immutable values, so a query result never
  changes after it is returned.
- Floating-point prices: `Double` is modelled as `real`, so NaN, infinities and signed zero
  are not covered.
- The clock: the injected `Supplier<Instant>` and `Instant.now()` become the `now`
  argument. Instants are whole seconds. Every use of the clock truncates to the minute, so
  the nanosecond part of a Java `Instant` cannot change a result.
- Instant range: instants are unbounded integers, so the `DateTimeException` that
  `plus(1, MINUTES)` (`CandlestickManagerImpl.kt:30`, `:47`) and `minus(30, MINUTES)`
  (`:14`, `:66`) throw beyond `Instant.MIN`/`Instant.MAX` is not modelled; there the model
  returns a value where the code throws.
- `addQuote` takes a whole `Quote` but uses only its price; the instrument comes from the
  separate `isin` argument. The model takes the price alone.
- Wiring in `Main.kt` (stream connections, the active-instrument filter, server start-up)
  and the HTTP routes: these are transport plumbing and sit outside the engine.
