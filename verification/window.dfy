/** The read side: reconstructing a minute-by-minute view of the last
    thirty-one minutes from one instrument's stored candles, with quiet
    minutes filled in from the most recent stored candle. */
module Window {
  import opened Wrappers
  import opened Candles
  import opened Series

  /** The number of minutes a query visits: thirty minutes back up to and
      including the current one. */
  const SLOTS: nat := WINDOW_MINUTES + 1

  /** The start of the `k`-th minute visited by a query that starts at `start`. */
  function SlotTime(start: Instant, k: int): (t: Instant) {
    start + MINUTE * k
  }

  /** The walk over minutes `k`, `k + 1`, ..., `SLOTS - 1` after `start`,
      carrying in `last` the most recent stored candle met so far. A minute
      with a stored candle emits that candle and makes it the new `last`; a
      minute without one emits a copy of `last` moved to that minute, or
      nothing while no stored candle has been met. */
  function Walk(series: seq<Candle>, start: Instant, k: nat, last: Option<Candle>): (r: seq<Candle>)
    decreases SLOTS - k
  {
    if k >= SLOTS then []
    else
      var t := SlotTime(start, k);
      match Find(series, t)
      case Some(c) => [c] + Walk(series, start, k + 1, Some(c))
      case None =>
        if last.Some? then [Retime(last.value, t)] + Walk(series, start, k + 1, last)
        else Walk(series, start, k + 1, None)
  }

  /** The first minute a query visits when its current minute starts at `end`. */
  function WindowStart(end: Instant): (start: Instant) {
    end - WINDOW
  }

  /** The view of `series` for a query whose current minute starts at `end`. */
  function Query(series: seq<Candle>, end: Instant): (r: seq<Candle>) {
    Walk(series, WindowStart(end), 0, None)
  }

  /** What a query result must look like, stated without reference to the
      walk: at most one entry per minute of the window, consecutive minutes
      ending at the current one, starting at the first minute of the window
      that has a stored candle; a minute with a stored candle shows it
      unchanged, any other minute repeats the previous entry moved to that
      minute. */
  ghost predicate IsWindowView(series: seq<Candle>, end: Instant, r: seq<Candle>) {
    && |r| <= SLOTS
    && (forall i :: 0 <= i < |r| ==> r[i].openTimestamp == end - MINUTE * (|r| - 1 - i))
    && (forall k :: 0 <= k < SLOTS - |r| ==> Find(series, SlotTime(WindowStart(end), k)).None?)
    && (|r| > 0 ==> Find(series, r[0].openTimestamp).Some?)
    && (forall i :: 0 <= i < |r| && Find(series, r[i].openTimestamp).Some? ==>
          r[i] == Find(series, r[i].openTimestamp).value)
    && (forall i :: 0 < i < |r| && Find(series, r[i].openTimestamp).None? ==>
          r[i] == Retime(r[i - 1], r[i].openTimestamp))
  }

  /** What the walk from minute `k` with carried candle `last` emits: its
      shape and its content. */
  ghost predicate WalkView(series: seq<Candle>, start: Instant, k: nat, last: Option<Candle>, r: seq<Candle>) {
    WalkShape(series, start, k, last, r) && WalkContent(series, last, r)
  }

  /** Which minutes the walk emits: consecutive ones ending at the last
      minute of the window, all of them once a stored candle has been met,
      and from the first stored candle on otherwise. */
  ghost predicate WalkShape(series: seq<Candle>, start: Instant, k: nat, last: Option<Candle>, r: seq<Candle>) {
    && k <= SLOTS
    && |r| <= SLOTS - k
    && (forall i :: 0 <= i < |r| ==> r[i].openTimestamp == SlotTime(start, SLOTS - |r| + i))
    && (last.Some? ==> |r| == SLOTS - k)
    && (last.None? ==> forall j :: k <= j < SLOTS - |r| ==> Find(series, SlotTime(start, j)).None?)
    && (last.None? && |r| > 0 ==> Find(series, r[0].openTimestamp).Some?)
  }

  /** What the walk emits for each minute: the stored candle, or a copy of
      the previous entry (of `last` for the first entry). */
  ghost predicate WalkContent(series: seq<Candle>, last: Option<Candle>, r: seq<Candle>) {
    && (last.Some? && |r| > 0 && Find(series, r[0].openTimestamp).None? ==>
          r[0] == Retime(last.value, r[0].openTimestamp))
    && (forall i :: 0 <= i < |r| && Find(series, r[i].openTimestamp).Some? ==>
          r[i] == Find(series, r[i].openTimestamp).value)
    && (forall i :: 0 < i < |r| && Find(series, r[i].openTimestamp).None? ==>
          r[i] == Retime(r[i - 1], r[i].openTimestamp))
  }

  lemma {:induction false} WalkIsWalkView(series: seq<Candle>, start: Instant, k: nat, last: Option<Candle>)
    requires k <= SLOTS
    ensures WalkView(series, start, k, last, Walk(series, start, k, last))
  {
    WalkHasShape(series, start, k, last);
    WalkHasContent(series, start, k, last);
  }

  lemma {:induction false} WalkHasShape(series: seq<Candle>, start: Instant, k: nat, last: Option<Candle>)
    requires k <= SLOTS
    ensures WalkShape(series, start, k, last, Walk(series, start, k, last))
    decreases SLOTS - k
  {
    if k < SLOTS {
      var t := SlotTime(start, k);
      match Find(series, t)
      case Some(c) =>
        var rest := Walk(series, start, k + 1, Some(c));
        WalkHasShape(series, start, k + 1, Some(c));
        assert Walk(series, start, k, last) == [c] + rest;
      case None =>
        var rest := Walk(series, start, k + 1, last);
        WalkHasShape(series, start, k + 1, last);
        if last.Some? {
          assert Walk(series, start, k, last) == [Retime(last.value, t)] + rest;
        }
    }
  }

  lemma {:induction false} WalkHasContent(series: seq<Candle>, start: Instant, k: nat, last: Option<Candle>)
    requires k <= SLOTS
    ensures WalkContent(series, last, Walk(series, start, k, last))
    decreases SLOTS - k
  {
    if k < SLOTS {
      var t := SlotTime(start, k);
      match Find(series, t)
      case Some(c) =>
        var rest := Walk(series, start, k + 1, Some(c));
        WalkHasContent(series, start, k + 1, Some(c));
        assert Walk(series, start, k, last) == [c] + rest;
        ContentConsStored(series, last, c, rest);
      case None =>
        var rest := Walk(series, start, k + 1, last);
        WalkHasContent(series, start, k + 1, last);
        if last.Some? {
          assert Walk(series, start, k, last) == [Retime(last.value, t)] + rest;
          ContentConsGap(series, last.value, t, rest);
        }
    }
  }

  /** Prepending the stored candle of a minute keeps the content description. */
  lemma ContentConsStored(series: seq<Candle>, last: Option<Candle>, c: Candle, rest: seq<Candle>)
    requires Find(series, c.openTimestamp) == Some(c)
    requires WalkContent(series, Some(c), rest)
    ensures WalkContent(series, last, [c] + rest)
  {
    var r := [c] + rest;
    assert forall i :: 0 < i < |r| ==> r[i] == rest[i - 1];
  }

  /** Prepending the gap-fill copy of `c` for a quiet minute `t` keeps the
      content description. */
  lemma ContentConsGap(series: seq<Candle>, c: Candle, t: Instant, rest: seq<Candle>)
    requires Find(series, t).None?
    requires WalkContent(series, Some(c), rest)
    ensures WalkContent(series, Some(c), [Retime(c, t)] + rest)
  {
    var r := [Retime(c, t)] + rest;
    assert forall i :: 0 < i < |r| ==> r[i] == rest[i - 1];
  }

  /** The query satisfies the declarative description of a window view. */
  lemma QueryIsWindowView(series: seq<Candle>, end: Instant)
    ensures IsWindowView(series, end, Query(series, end))
  {
    WalkIsWalkView(series, WindowStart(end), 0, None);
  }

  /** At most one sequence is a window view, so the description pins the
      query result down completely. */
  lemma WindowViewUnique(series: seq<Candle>, end: Instant, r1: seq<Candle>, r2: seq<Candle>)
    requires IsWindowView(series, end, r1)
    requires IsWindowView(series, end, r2)
    ensures r1 == r2
  {
    SameLength(series, end, r1, r2);
    SameLength(series, end, r2, r1);
    forall i | 0 <= i < |r1| ensures r1[i] == r2[i] {
      SameEntry(series, end, r1, r2, i);
    }
  }

  lemma SameLength(series: seq<Candle>, end: Instant, r1: seq<Candle>, r2: seq<Candle>)
    requires IsWindowView(series, end, r1)
    requires IsWindowView(series, end, r2)
    ensures |r1| <= |r2|
  {
    if |r1| > 0 {
      var k := SLOTS - |r1|;
      assert r1[0].openTimestamp == SlotTime(WindowStart(end), k);
      assert Find(series, SlotTime(WindowStart(end), k)).Some?;
    }
  }

  lemma {:induction false} SameEntry(series: seq<Candle>, end: Instant, r1: seq<Candle>, r2: seq<Candle>, i: nat)
    requires IsWindowView(series, end, r1)
    requires IsWindowView(series, end, r2)
    requires |r1| == |r2| && i < |r1|
    ensures r1[i] == r2[i]
    decreases i
  {
    if i > 0 && Find(series, r1[i].openTimestamp).None? {
      SameEntry(series, end, r1, r2, i - 1);
    }
  }

  /** A sequence is the query result exactly when it is a window view. */
  lemma QueryCharacterization(series: seq<Candle>, end: Instant, r: seq<Candle>)
    ensures r == Query(series, end) <==> IsWindowView(series, end, r)
  {
    QueryIsWindowView(series, end);
    if IsWindowView(series, end, r) {
      WindowViewUnique(series, end, r, Query(series, end));
    }
  }

  /** Every entry of a window view carries the prices of the most recent
      stored candle at or before its minute: a gap-filled entry keeps that
      candle's full open/high/low/close, not only its close, and only
      stored candles are ever copied. */
  lemma {:induction false} EntryCopiesLatestStored(series: seq<Candle>, end: Instant, r: seq<Candle>, i: nat)
    returns (j: nat)
    requires IsWindowView(series, end, r)
    requires i < |r|
    ensures j <= i
    ensures r[j] in series && Find(series, r[j].openTimestamp) == Some(r[j])
    ensures SamePrices(r[j], r[i])
    ensures forall m :: j < m <= i ==> Find(series, r[m].openTimestamp).None?
    decreases i
  {
    if Find(series, r[i].openTimestamp).Some? {
      j := i;
    } else {
      j := EntryCopiesLatestStored(series, end, r, i - 1);
      assert r[i] == Retime(r[i - 1], r[i].openTimestamp);
    }
  }

  /** Every entry of the view of a well-formed series is a one-minute bucket
      that opens on a minute boundary. */
  lemma WindowViewEntriesAreBuckets(series: seq<Candle>, end: Instant, r: seq<Candle>)
    requires WellFormed(series)
    requires end % MINUTE == 0
    requires IsWindowView(series, end, r)
    ensures forall i :: 0 <= i < |r| ==> r[i].openTimestamp % MINUTE == 0
    ensures forall i :: 0 <= i < |r| ==> r[i].closeTimestamp == r[i].openTimestamp + MINUTE
  {
    forall i | 0 <= i < |r|
      ensures r[i].closeTimestamp == r[i].openTimestamp + MINUTE
    {
      if Find(series, r[i].openTimestamp).Some? {
        var c := Find(series, r[i].openTimestamp).value;
        assert r[i] == c;
        assert c in series;
        var j :| 0 <= j < |series| && series[j] == c;
        assert WellFormedCandle(series[j]);
      } else {
        assert i > 0;
        assert r[i] == Retime(r[i - 1], r[i].openTimestamp);
      }
    }
  }

  /** When a stored candle opens in the current minute, the view ends with
      that candle, unchanged. */
  lemma QueryEndsWithCurrent(series: seq<Candle>, end: Instant, i: nat)
    requires Ordered(series)
    requires i < |series|
    requires series[i].openTimestamp == end
    ensures |Query(series, end)| > 0
    ensures Query(series, end)[|Query(series, end)| - 1] == series[i]
  {
    var r := Query(series, end);
    QueryIsWindowView(series, end);
    FindUnique(series, i);
    assert SlotTime(WindowStart(end), WINDOW_MINUTES) == end;
    assert Find(series, SlotTime(WindowStart(end), WINDOW_MINUTES)).Some?;
    assert |r| > 0;
    assert r[|r| - 1].openTimestamp == end;
  }
}
