/** Time, prices and the one-minute OHLC candle record. */
module Candles {

  /** An instant, as whole seconds since the epoch. Every use of the clock is
      truncated to the minute first, so the sub-second part of an instant
      never affects a result and is not modelled. */
  type Instant = int

  /** A price. The aggregator only compares and copies prices, so any totally
      ordered type will do; NaN and the infinities are outside the model. */
  type Price = real

  const MINUTE: int := 60

  /** Candles older than this many minutes are dropped on every write, and a
      query looks back exactly this far. */
  const WINDOW_MINUTES: nat := 30

  const WINDOW: int := WINDOW_MINUTES * MINUTE

  /** Start of the minute containing `t` (rounding towards the past, also
      before the epoch). */
  function TruncMinute(t: Instant): (m: Instant)
    ensures m % MINUTE == 0
    ensures m <= t < m + MINUTE
  {
    t - t % MINUTE
  }

  function Max(a: Price, b: Price): (m: Price)
    ensures m >= a && m >= b
    ensures m == a || m == b
  {
    if a >= b then a else b
  }

  function Min(a: Price, b: Price): (m: Price)
    ensures m <= a && m <= b
    ensures m == a || m == b
  {
    if a <= b then a else b
  }

  /** One OHLC candle. `openTimestamp` is the bucket's identity and
      `openPrice` is fixed at creation; the other fields change as quotes are
      folded in. */
  datatype Candle = Candle(
    openTimestamp: Instant,
    closeTimestamp: Instant,
    openPrice: Price,
    highPrice: Price,
    lowPrice: Price,
    closingPrice: Price)

  /** A fresh candle for the minute starting at `minute`, opened by one quote. */
  function OpenCandle(minute: Instant, price: Price): (c: Candle)
    ensures c.openTimestamp == minute && c.closeTimestamp == minute + MINUTE
    ensures c.openPrice == price && c.highPrice == price
    ensures c.lowPrice == price && c.closingPrice == price
  {
    Candle(minute, minute + MINUTE, price, price, price, price)
  }

  /** `c` with one more quote folded in: the quote becomes the close and
      widens the high/low range; timestamps and the open price stay. */
  function Fold(c: Candle, price: Price): (d: Candle)
    ensures d.openTimestamp == c.openTimestamp && d.closeTimestamp == c.closeTimestamp
    ensures d.openPrice == c.openPrice
    ensures d.closingPrice == price
    ensures d.highPrice >= c.highPrice && d.highPrice >= price
    ensures d.highPrice == c.highPrice || d.highPrice == price
    ensures d.lowPrice <= c.lowPrice && d.lowPrice <= price
    ensures d.lowPrice == c.lowPrice || d.lowPrice == price
  {
    c.(closingPrice := price, highPrice := Max(c.highPrice, price), lowPrice := Min(c.lowPrice, price))
  }

  /** A copy of `c` moved to the minute starting at `t`, prices unchanged:
      the gap-fill entry of a query. */
  function Retime(c: Candle, t: Instant): (d: Candle)
    ensures d.openTimestamp == t && d.closeTimestamp == t + MINUTE
    ensures SamePrices(c, d)
  {
    c.(openTimestamp := t, closeTimestamp := t + MINUTE)
  }

  predicate SamePrices(a: Candle, b: Candle) {
    && a.openPrice == b.openPrice
    && a.highPrice == b.highPrice
    && a.lowPrice == b.lowPrice
    && a.closingPrice == b.closingPrice
  }

  /** The shape every stored candle keeps: a minute-aligned one-minute bucket
      whose open and close prices lie within its low/high range. */
  predicate WellFormedCandle(c: Candle) {
    && c.openTimestamp % MINUTE == 0
    && c.closeTimestamp == c.openTimestamp + MINUTE
    && c.lowPrice <= c.openPrice <= c.highPrice
    && c.lowPrice <= c.closingPrice <= c.highPrice
  }

  lemma OpenCandleWellFormed(minute: Instant, price: Price)
    requires minute % MINUTE == 0
    ensures WellFormedCandle(OpenCandle(minute, price))
  {
  }

  /** Folding a quote keeps a candle well formed, and the quote lies within
      the new low/high range. */
  lemma FoldWellFormed(c: Candle, price: Price)
    requires WellFormedCandle(c)
    ensures WellFormedCandle(Fold(c, price))
    ensures Fold(c, price).lowPrice <= price <= Fold(c, price).highPrice
  {
  }
}
