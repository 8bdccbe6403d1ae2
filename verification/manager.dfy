/** The candlestick manager: a store of per-instrument series, written by
    `AddQuote` and read by `GetCandlesticks`. The clock is an explicit `now`
    argument of both operations. */
module CandlestickManager {
  import opened Candles
  import opened Series
  import opened Window

  /** An instrument identifier (ISIN). */
  type Isin = string

  /** Stored candles per instrument. An instrument has an entry from its
      first quote on. */
  type Store = map<Isin, seq<Candle>>

  /** The instrument's series, or the empty series it starts from. */
  function Lookup(store: Store, isin: Isin): (series: seq<Candle>) {
    if isin in store then store[isin] else []
  }

  /** The invariant every stored series keeps. */
  predicate WellFormedStore(store: Store) {
    forall isin :: isin in store ==> WellFormed(store[isin])
  }

  /** Records a quote of `price` for `isin` observed at `now`: opens a new
      candle or folds the price into the last one, then keeps only the candles
      that opened within the thirty minutes before the current minute. */
  function AddQuote(store: Store, isin: Isin, price: Price, now: Instant): (store': Store)
    ensures store'.Keys == store.Keys + {isin}
    ensures forall other :: other in store && other != isin ==> store'[other] == store[other]
    ensures store'[isin] == Record(Lookup(store, isin), price, TruncMinute(now))
    ensures forall c :: c in store'[isin] ==> c.openTimestamp > TruncMinute(now) - WINDOW
  {
    store[isin := Record(Lookup(store, isin), price, TruncMinute(now))]
  }

  /** The candles of `isin` for the thirty-one minutes ending with the one
      containing `now`, quiet minutes filled from the most recent stored
      candle; nothing for an instrument that has never been quoted. The store
      is only read. */
  function GetCandlesticks(store: Store, isin: Isin, now: Instant): (r: seq<Candle>)
    ensures isin !in store ==> r == []
    ensures |r| <= SLOTS
    ensures isin in store ==> IsWindowView(store[isin], TruncMinute(now), r)
  {
    if isin !in store then []
    else
      QueryIsWindowView(store[isin], TruncMinute(now));
      Query(store[isin], TruncMinute(now))
  }

  /** A quote never breaks the store invariant. The instrument's series is
      non-empty afterwards and ends with the candle the quote opened or
      updated: pruning never drops it. */
  lemma AddQuotePreservesWellFormed(store: Store, isin: Isin, price: Price, now: Instant)
    requires WellFormedStore(store)
    ensures WellFormedStore(AddQuote(store, isin, price, now))
    ensures |AddQuote(store, isin, price, now)[isin]| > 0
    ensures Last(AddQuote(store, isin, price, now)[isin])
            == Last(Absorb(Lookup(store, isin), price, TruncMinute(now)))
  {
    RecordPreservesWellFormed(Lookup(store, isin), price, TruncMinute(now));
  }

  /** One observed quote: the instrument, the price and the clock reading. */
  datatype QuoteEvent = QuoteEvent(isin: Isin, price: Price, at: Instant)

  /** The store after recording `events` in order, starting from no data. */
  function Replay(events: seq<QuoteEvent>): (store: Store)
    decreases |events|
  {
    if |events| == 0 then map[]
    else
      var e := events[|events| - 1];
      AddQuote(Replay(events[..|events| - 1]), e.isin, e.price, e.at)
  }

  /** Whatever quotes arrive, with whatever clock readings (including a
      clock that steps backwards), every stored series stays well formed:
      one-minute buckets in strictly increasing order whose open and close
      lie within their low/high range. */
  lemma {:induction false} ReplayWellFormed(events: seq<QuoteEvent>)
    ensures WellFormedStore(Replay(events))
    decreases |events|
  {
    if |events| > 0 {
      var e := events[|events| - 1];
      ReplayWellFormed(events[..|events| - 1]);
      AddQuotePreservesWellFormed(Replay(events[..|events| - 1]), e.isin, e.price, e.at);
    }
  }

  /** An instrument has an entry exactly when some quote named it. */
  lemma ReplayKeys(events: seq<QuoteEvent>)
    ensures Replay(events).Keys == set e | e in events :: e.isin
  {
    ReplayKeysNamed(events);
    NamedIsins(events);
  }

  /** The instruments named by `events`, collected in the order of `Replay`. */
  function Named(events: seq<QuoteEvent>): (isins: set<Isin>)
    decreases |events|
  {
    if |events| == 0 then {} else Named(events[..|events| - 1]) + {events[|events| - 1].isin}
  }

  lemma {:induction false} ReplayKeysNamed(events: seq<QuoteEvent>)
    ensures Replay(events).Keys == Named(events)
    decreases |events|
  {
    if |events| > 0 {
      ReplayKeysNamed(events[..|events| - 1]);
    }
  }

  lemma {:induction false} NamedIsins(events: seq<QuoteEvent>)
    ensures Named(events) == set e | e in events :: e.isin
    decreases |events|
  {
    if |events| > 0 {
      var prefix := events[..|events| - 1];
      var e := events[|events| - 1];
      NamedIsins(prefix);
      assert events == prefix + [e];
      forall x | x in events ensures x in prefix || x == e {}
    }
  }

  /** A fresh instrument shows nothing; after one quote, a query in the same
      minute shows exactly the candle that quote opened. */
  lemma FirstQuoteShowsOneCandle(store: Store, isin: Isin, price: Price, now: Instant)
    requires isin !in store
    ensures GetCandlesticks(store, isin, now) == []
    ensures GetCandlesticks(AddQuote(store, isin, price, now), isin, now)
            == [OpenCandle(TruncMinute(now), price)]
  {
    var m := TruncMinute(now);
    var c := OpenCandle(m, price);
    var store' := AddQuote(store, isin, price, now);
    RecordFirstQuote(price, m);
    assert store'[isin] == [c];
    LoneCandleView(store', isin, now, c);
  }

  /** Two quotes in the same minute for a fresh instrument fold into one
      candle: the first sets the open, the second the close, and high and
      low span both. */
  lemma SameMinuteQuotesFold(store: Store, isin: Isin, p1: Price, p2: Price, now: Instant)
    requires isin !in store
    ensures GetCandlesticks(AddQuote(AddQuote(store, isin, p1, now), isin, p2, now), isin, now)
            == [Candle(TruncMinute(now), TruncMinute(now) + MINUTE, p1, Max(p1, p2), Min(p1, p2), p2)]
  {
    var m := TruncMinute(now);
    var s1 := AddQuote(store, isin, p1, now);
    var s2 := AddQuote(s1, isin, p2, now);
    var c := Candle(m, m + MINUTE, p1, Max(p1, p2), Min(p1, p2), p2);
    RecordFirstQuote(p1, m);
    assert s1[isin] == [OpenCandle(m, p1)];
    OpenCandleWellFormed(m, p1);
    RecordSameMinute(OpenCandle(m, p1), p2, m);
    assert Fold(OpenCandle(m, p1), p2) == c;
    assert s2[isin] == [c];
    LoneCandleView(s2, isin, now, c);
  }

  /** An instrument whose only stored candle opened in the current minute
      shows exactly that candle. */
  lemma LoneCandleView(store: Store, isin: Isin, now: Instant, c: Candle)
    requires isin in store && store[isin] == [c]
    requires c.openTimestamp == TruncMinute(now)
    ensures GetCandlesticks(store, isin, now) == [c]
  {
    QuietMinutesView(c, TruncMinute(now), 0);
    assert SeqOfCopies(c, 0) == [c];
    WindowViewUnique(store[isin], TruncMinute(now), GetCandlesticks(store, isin, now), [c]);
  }

  /** `c` followed by its copies moved one minute later each, `d` copies in all. */
  function SeqOfCopies(c: Candle, d: nat): (r: seq<Candle>) {
    seq(d + 1, i => if i == 0 then c else Retime(c, c.openTimestamp + MINUTE * i))
  }

  /** The view of a series holding one candle `c`, queried `d` minutes
      after `c` opened, is `c` followed by `d` gap-filled copies of it. */
  lemma QuietMinutesView(c: Candle, m: Instant, d: nat)
    requires c.openTimestamp == m
    requires d <= WINDOW_MINUTES
    ensures IsWindowView([c], m + MINUTE * d, SeqOfCopies(c, d))
  {
    var end := m + MINUTE * d;
    var r := SeqOfCopies(c, d);
    forall k | 0 <= k < SLOTS - |r|
      ensures Find([c], SlotTime(WindowStart(end), k)).None?
    {
      assert SlotTime(WindowStart(end), k) < m;
    }
    forall i | 0 < i < |r|
      ensures Find([c], r[i].openTimestamp).None?
      ensures r[i] == Retime(r[i - 1], r[i].openTimestamp)
    {
      assert r[i].openTimestamp == m + MINUTE * i;
    }
  }

  /** A single quote followed by `d` quiet minutes: a query `d` minutes later
      shows the quote's candle and then one copy per quiet minute, each
      carrying the quote's price as open, high, low and close. */
  lemma QuietMinutesRepeatLastCandle(store: Store, isin: Isin, price: Price, now: Instant, later: Instant, d: nat)
    requires isin !in store
    requires d <= WINDOW_MINUTES
    requires TruncMinute(later) == TruncMinute(now) + MINUTE * d
    ensures var r := GetCandlesticks(AddQuote(store, isin, price, now), isin, later);
            && |r| == d + 1
            && forall i :: 0 <= i < |r| ==> r[i] == OpenCandle(TruncMinute(now) + MINUTE * i, price)
  {
    var m := TruncMinute(now);
    var c := OpenCandle(m, price);
    var store' := AddQuote(store, isin, price, now);
    RecordFirstQuote(price, m);
    QuietMinutesView(c, m, d);
    WindowViewUnique(store'[isin], TruncMinute(later), GetCandlesticks(store', isin, later), SeqOfCopies(c, d));
    CopiesOfOpenCandle(m, price, d);
  }

  /** Moving a freshly opened candle to a later minute gives the candle that
      the same price would have opened there. */
  lemma CopiesOfOpenCandle(m: Instant, price: Price, d: nat)
    ensures forall i :: 0 <= i <= d ==> SeqOfCopies(OpenCandle(m, price), d)[i] == OpenCandle(m + MINUTE * i, price)
  {
    var r := SeqOfCopies(OpenCandle(m, price), d);
    forall i | 0 <= i <= d ensures r[i] == OpenCandle(m + MINUTE * i, price) {
      if i > 0 {
        assert r[i] == Retime(OpenCandle(m, price), m + MINUTE * i);
      }
    }
  }

  /** Two quotes at least thirty minutes apart: the second write prunes the
      first candle, leaving only the candle the second quote opened. */
  lemma DistantQuotesPruneOlder(store: Store, isin: Isin, p1: Price, p2: Price, t1: Instant, t2: Instant)
    requires isin !in store
    requires TruncMinute(t2) >= TruncMinute(t1) + WINDOW
    ensures AddQuote(AddQuote(store, isin, p1, t1), isin, p2, t2)[isin] == [OpenCandle(TruncMinute(t2), p2)]
  {
    var m1 := TruncMinute(t1);
    var m2 := TruncMinute(t2);
    RecordFirstQuote(p1, m1);
    OpenCandleWellFormed(m1, p1);
    RecordAfterWindow(OpenCandle(m1, p1), p2, m2);
  }

  /** With a clock that has not stepped back behind the stored candles, a
      query in the same minute as a quote ends with the candle that quote
      opened or updated, whose close is the quoted price. */
  lemma QueryAfterQuoteEndsWithIt(store: Store, isin: Isin, price: Price, now: Instant)
    requires WellFormedStore(store)
    requires forall c :: c in Lookup(store, isin) ==> c.openTimestamp <= TruncMinute(now)
    ensures var store' := AddQuote(store, isin, price, now);
            var r := GetCandlesticks(store', isin, now);
            && |r| > 0
            && r[|r| - 1] == Last(store'[isin])
            && r[|r| - 1].openTimestamp == TruncMinute(now)
            && r[|r| - 1].closingPrice == price
  {
    var m := TruncMinute(now);
    var store' := AddQuote(store, isin, price, now);
    RecordPreservesWellFormed(Lookup(store, isin), price, m);
    RecordEndsAtMinute(Lookup(store, isin), price, m);
    QueryEndsWithCurrent(store'[isin], m, |store'[isin]| - 1);
  }
}
