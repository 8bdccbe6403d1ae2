/** One instrument's stored candles and the write-side rules that change them:
    open-or-update on a quote, then prune to the retention window. */
module Series {
  import opened Wrappers
  import opened Candles

  /** The first candle whose bucket opens at `t`, scanning from the front. */
  function Find(series: seq<Candle>, t: Instant): (r: Option<Candle>)
    ensures r.Some? ==> r.value in series && r.value.openTimestamp == t
    ensures r.None? <==> forall i :: 0 <= i < |series| ==> series[i].openTimestamp != t
  {
    if |series| == 0 then None
    else if series[0].openTimestamp == t then Some(series[0])
    else
      Find(series[1..], t)
  }

  function Last(series: seq<Candle>): (c: Candle)
    requires |series| > 0
  {
    series[|series| - 1]
  }

  /** Whether a quote in `minute` opens a new candle: the series is empty or
      its last candle has closed by the start of `minute`. */
  predicate RollsOver(series: seq<Candle>, minute: Instant) {
    |series| == 0 || Last(series).closeTimestamp <= minute
  }

  /** The series after one quote of `price` in the minute starting at
      `minute`, before pruning. */
  function Absorb(series: seq<Candle>, price: Price, minute: Instant): (r: seq<Candle>)
    ensures |r| > 0
    ensures RollsOver(series, minute) ==>
              && |r| == |series| + 1
              && r[..|series|] == series
              && Last(r).openTimestamp == minute
              && Last(r).closeTimestamp == minute + MINUTE
              && Last(r).openPrice == price && Last(r).highPrice == price
              && Last(r).lowPrice == price && Last(r).closingPrice == price
    ensures !RollsOver(series, minute) ==>
              && |r| == |series|
              && r[..|r| - 1] == series[..|series| - 1]
              && Last(r).openTimestamp == Last(series).openTimestamp
              && Last(r).closeTimestamp == Last(series).closeTimestamp
              && Last(r).openPrice == Last(series).openPrice
              && Last(r).closingPrice == price
              && Last(r).highPrice >= Last(series).highPrice && Last(r).highPrice >= price
              && (Last(r).highPrice == Last(series).highPrice || Last(r).highPrice == price)
              && Last(r).lowPrice <= Last(series).lowPrice && Last(r).lowPrice <= price
              && (Last(r).lowPrice == Last(series).lowPrice || Last(r).lowPrice == price)
  {
    if RollsOver(series, minute) then series + [OpenCandle(minute, price)]
    else series[..|series| - 1] + [Fold(Last(series), price)]
  }

  /** The candles whose bucket opens strictly after `cutoff`, in order. */
  function Prune(series: seq<Candle>, cutoff: Instant): (r: seq<Candle>)
    ensures |r| <= |series|
    ensures forall c :: c in r <==> c in series && c.openTimestamp > cutoff
  {
    if |series| == 0 then []
    else if series[0].openTimestamp > cutoff then [series[0]] + Prune(series[1..], cutoff)
    else Prune(series[1..], cutoff)
  }

  /** The series after one quote of `price` in the minute starting at
      `minute`: the quote is absorbed, then only the candles that opened
      within the retention window before `minute` are kept. */
  function Record(series: seq<Candle>, price: Price, minute: Instant): (r: seq<Candle>)
    ensures forall c :: c in r <==>
              c in Absorb(series, price, minute) && c.openTimestamp > minute - WINDOW
  {
    Prune(Absorb(series, price, minute), minute - WINDOW)
  }

  /** Bucket opens strictly increase along the series. */
  predicate Ordered(series: seq<Candle>) {
    forall i, j :: 0 <= i < j < |series| ==> series[i].openTimestamp < series[j].openTimestamp
  }

  /** The invariant of a stored series: well-formed candles in strictly
      increasing minute order. */
  predicate WellFormed(series: seq<Candle>) {
    && (forall i :: 0 <= i < |series| ==> WellFormedCandle(series[i]))
    && Ordered(series)
  }

  /** A quote never breaks the invariant, whatever minute it carries. A new
      candle is opened only once the last one has closed, and a candle closes
      one minute after it opens, so a clock that steps backwards folds the
      quote into the last candle instead of appending out of order. */
  lemma AbsorbPreservesWellFormed(series: seq<Candle>, price: Price, minute: Instant)
    requires WellFormed(series)
    requires minute % MINUTE == 0
    ensures WellFormed(Absorb(series, price, minute))
  {
    var r := Absorb(series, price, minute);
    if RollsOver(series, minute) {
      OpenCandleWellFormed(minute, price);
      assert r == series + [OpenCandle(minute, price)];
      forall i, j | 0 <= i < j < |r|
        ensures r[i].openTimestamp < r[j].openTimestamp
      {
        if j == |series| {
          assert series[i].openTimestamp <= Last(series).openTimestamp;
        }
      }
    } else {
      FoldWellFormed(Last(series), price);
      assert r == series[..|series| - 1] + [Fold(Last(series), price)];
      forall i | 0 <= i < |r|
        ensures WellFormedCandle(r[i])
      {
        if i < |r| - 1 {
          assert r[i] == series[i];
        }
      }
      forall i, j | 0 <= i < j < |r|
        ensures r[i].openTimestamp < r[j].openTimestamp
      {
        assert r[i] == series[i];
        if j < |r| - 1 {
          assert r[j] == series[j];
        }
      }
    }
  }

  /** On an ordered series, pruning keeps exactly the candles from some
      position on: eviction is always from the front. */
  lemma {:induction false} PruneOrderedIsSuffix(series: seq<Candle>, cutoff: Instant)
    requires Ordered(series)
    ensures exists k :: 0 <= k <= |series| && Prune(series, cutoff) == series[k..]
    decreases |series|
  {
    if |series| == 0 {
      assert Prune(series, cutoff) == series[0..];
    } else if series[0].openTimestamp > cutoff {
      PruneKeepsAllAfter(series, cutoff);
      assert Prune(series, cutoff) == series[0..];
    } else {
      PruneOrderedIsSuffix(series[1..], cutoff);
      var k :| 0 <= k <= |series| - 1 && Prune(series[1..], cutoff) == series[1..][k..];
      assert series[1..][k..] == series[k + 1..];
    }
  }

  /** Pruning an ordered series whose first candle survives keeps all of it. */
  lemma {:induction false} PruneKeepsAllAfter(series: seq<Candle>, cutoff: Instant)
    requires Ordered(series)
    requires |series| > 0 && series[0].openTimestamp > cutoff
    ensures Prune(series, cutoff) == series
    decreases |series|
  {
    if |series| > 1 {
      assert series[1].openTimestamp > series[0].openTimestamp;
      PruneKeepsAllAfter(series[1..], cutoff);
    }
    assert [series[0]] + series[1..] == series;
  }

  /** Pruning keeps the invariant. */
  lemma PrunePreservesWellFormed(series: seq<Candle>, cutoff: Instant)
    requires WellFormed(series)
    ensures WellFormed(Prune(series, cutoff))
  {
    PruneOrderedIsSuffix(series, cutoff);
    var k :| 0 <= k <= |series| && Prune(series, cutoff) == series[k..];
    SuffixWellFormed(series, k);
  }

  lemma SuffixWellFormed(series: seq<Candle>, k: nat)
    requires WellFormed(series)
    requires k <= |series|
    ensures WellFormed(series[k..])
  {
    var r := series[k..];
    assert forall i :: 0 <= i < |r| ==> r[i] == series[k + i];
  }

  /** On a well-formed series the bucket opening at `t`, if any, is unique,
      so the front-to-back scan finds the only candidate. */
  lemma FindUnique(series: seq<Candle>, i: nat)
    requires Ordered(series)
    requires i < |series|
    ensures Find(series, series[i].openTimestamp) == Some(series[i])
  {
    var j := FindReturnsFirst(series, series[i].openTimestamp);
  }

  /** A candle that the search returns is the first one opening at `t`;
      its position is returned. */
  lemma {:induction false} FindReturnsFirst(series: seq<Candle>, t: Instant) returns (j: nat)
    requires Find(series, t).Some?
    ensures j < |series| && series[j] == Find(series, t).value
    ensures forall m :: 0 <= m < j ==> series[m].openTimestamp != t
    decreases |series|
  {
    if series[0].openTimestamp == t {
      j := 0;
    } else {
      var j' := FindReturnsFirst(series[1..], t);
      j := j' + 1;
    }
  }

  /** Recording a quote keeps the invariant; the series is non-empty
      afterwards and ends with the candle the quote opened or updated, which
      pruning never drops. */
  lemma RecordPreservesWellFormed(series: seq<Candle>, price: Price, minute: Instant)
    requires WellFormed(series)
    requires minute % MINUTE == 0
    ensures WellFormed(Record(series, price, minute))
    ensures |Record(series, price, minute)| > 0
    ensures Last(Record(series, price, minute)) == Last(Absorb(series, price, minute))
  {
    var absorbed := Absorb(series, price, minute);
    AbsorbPreservesWellFormed(series, price, minute);
    PrunePreservesWellFormed(absorbed, minute - WINDOW);
    AbsorbLastIsRecent(series, price, minute);
    PruneKeepsLast(absorbed, minute - WINDOW);
    assert Record(series, price, minute) == Prune(absorbed, minute - WINDOW);
  }

  /** The candle a quote opened or updated opened less than a minute before
      the quote's minute (or after it, when the clock stepped back). */
  lemma AbsorbLastIsRecent(series: seq<Candle>, price: Price, minute: Instant)
    requires WellFormed(series)
    ensures Last(Absorb(series, price, minute)).openTimestamp > minute - MINUTE
  {
    if !RollsOver(series, minute) {
      assert WellFormedCandle(series[|series| - 1]);
    }
  }

  /** Pruning an ordered series whose last candle survives keeps that
      candle last. */
  lemma PruneKeepsLast(series: seq<Candle>, cutoff: Instant)
    requires Ordered(series)
    requires |series| > 0 && Last(series).openTimestamp > cutoff
    ensures |Prune(series, cutoff)| > 0
    ensures Last(Prune(series, cutoff)) == Last(series)
  {
    PruneOrderedIsSuffix(series, cutoff);
    var k :| 0 <= k <= |series| && Prune(series, cutoff) == series[k..];
    assert Last(series) in Prune(series, cutoff);
  }

  /** The first quote of an instrument opens its only candle. */
  lemma RecordFirstQuote(price: Price, minute: Instant)
    ensures Record([], price, minute) == [OpenCandle(minute, price)]
  {
    assert Absorb([], price, minute) == [OpenCandle(minute, price)];
  }

  /** A quote in the minute of a lone candle folds into it. */
  lemma RecordSameMinute(c: Candle, price: Price, minute: Instant)
    requires WellFormedCandle(c)
    requires c.openTimestamp == minute
    ensures Record([c], price, minute) == [Fold(c, price)]
  {
    assert Absorb([c], price, minute) == [Fold(c, price)];
  }

  /** A quote at least a retention window after a lone candle opened opens a
      new candle and evicts the old one. */
  lemma RecordAfterWindow(c: Candle, price: Price, minute: Instant)
    requires WellFormedCandle(c)
    requires minute >= c.openTimestamp + WINDOW
    ensures Record([c], price, minute) == [OpenCandle(minute, price)]
  {
    var absorbed := Absorb([c], price, minute);
    assert absorbed == [c, OpenCandle(minute, price)];
    assert absorbed[1..] == [OpenCandle(minute, price)];
  }

  /** With a clock that has not stepped back behind the stored candles, the
      series after a quote ends with a candle for the quote's own minute,
      closing at the quoted price. */
  lemma RecordEndsAtMinute(series: seq<Candle>, price: Price, minute: Instant)
    requires WellFormed(series)
    requires minute % MINUTE == 0
    requires forall c :: c in series ==> c.openTimestamp <= minute
    ensures |Record(series, price, minute)| > 0
    ensures Last(Record(series, price, minute)).openTimestamp == minute
    ensures Last(Record(series, price, minute)).closingPrice == price
  {
    RecordPreservesWellFormed(series, price, minute);
    if !RollsOver(series, minute) {
      var last := series[|series| - 1];
      assert WellFormedCandle(last);
      assert last in series;
      SameAlignedMinute(last.openTimestamp, minute);
    }
  }

  /** Two minute-aligned instants less than a minute apart coincide. */
  lemma SameAlignedMinute(a: Instant, b: Instant)
    requires a % MINUTE == 0 && b % MINUTE == 0
    requires b - MINUTE < a <= b
    ensures a == b
  {
    var qa, qb := a / MINUTE, b / MINUTE;
    assert a == MINUTE * qa && b == MINUTE * qb;
  }
}
