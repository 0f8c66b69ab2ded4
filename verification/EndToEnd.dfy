/** From raw samples to fifteen-minute rows: the two levels of aggregation together. */
module EndToEnd {
  import opened Types
  import opened RollupSpec
  import opened MinuteRuns
  import opened HistorySpec

  // Arbitrary runs: the samples of the last flush of each row.

  function OriginOf(bs: seq<Batch>): Origin {
    if bs == [] then map[] else OriginOf(bs[..|bs| - 1]) + BatchOrigin(bs[|bs| - 1])
  }

  function BatchOrigin(b: Batch): Origin {
    map p | p in BatchKeys(b) :: OfKey(b.samples, p.1)
  }

  lemma BatchIsBacked(b: Batch)
    ensures Backed(Rows(b), BatchOrigin(b))
  {
    hide RowOf;
    forall p | p in BatchKeys(b) ensures OfKey(b.samples, p.1) != [] {
      MatchesOfKey(b, p.1);
    }
  }

  lemma BackedOverwrite(t: Table, origin: Origin, u: Table, origin': Origin)
    requires Backed(t, origin) && Backed(u, origin')
    ensures Backed(t + u, origin + origin')
  {
    hide RowOf;
  }

  /** Every table that a run can produce is made of rows over non-empty lists of its samples. */
  lemma {:induction false} RunsAreBacked(bs: seq<Batch>)
    ensures Backed(TableOf(bs), OriginOf(bs))
  {
    if bs != [] {
      hide Backed, BatchOrigin, Rows;
      RunsAreBacked(bs[..|bs| - 1]);
      BatchIsBacked(bs[|bs| - 1]);
      BackedOverwrite(TableOf(bs[..|bs| - 1]), OriginOf(bs[..|bs| - 1]), Rows(bs[|bs| - 1]), BatchOrigin(bs[|bs| - 1]));
    } else {
      hide RowOf;
    }
  }

  /**
   For every run of samples and flushes, even one that overwrites rows, and on top of any rows that
   have such an origin themselves, the rollup of the rows that a query selects is the aggregate of
   all raw samples behind those rows.
   */
  lemma RollupOfAnyRun(stored: Table, before: Origin, ops: seq<Op>, key: string, start: int,
                       end: int)
    requires Backed(stored, before)
    ensures var origin := before + OriginOf(RunTrace(ops).batches);
            var data, samples := Scan(Run(stored, ops).table, key, start, end), Behind(origin, key, start, end);
            && (data == [] <==> samples == [])
            && (data != [] ==> Rollup(data, key, start) == ToAggregate(Fold(samples), key, start))
  {
    var bs := RunTrace(ops).batches;
    RunIsTrace(stored, ops);
    RunsAreBacked(bs);
    BackedOverwrite(stored, before, TableOf(bs), OriginOf(bs));
    RollupIsDirect(Run(stored, ops).table, before + OriginOf(bs), key, start, end);
  }

  ghost predicate WholeMinutes(bs: seq<Batch>) {
    forall i :: 0 <= i < |bs| ==> bs[i].bucketTs % 60 == 0
  }

  lemma {:induction false} RunInWholeMinutes(ops: seq<Op>)
    ensures RunTrace(ops).current % 60 == 0 && WholeMinutes(RunTrace(ops).batches)
  {
    if ops != [] {
      RunInWholeMinutes(ops[..|ops| - 1]);
      var last := ops[|ops| - 1];
      if last.Accumulate? {
        BucketIsFloor(last.sample.ts);
      }
      hide Bucket1m;
    }
  }

  lemma {:induction false} WholeMinutesAligned(stored: Table, bs: seq<Batch>)
    requires Aligned(stored) && WholeMinutes(bs)
    ensures Aligned(stored + TableOf(bs))
  {
    hide RowOf, OfKey;
    if bs != [] {
      WholeMinutesAligned(stored, bs[..|bs| - 1]);
      Layers(stored, TableOf(bs[..|bs| - 1]), Rows(bs[|bs| - 1]));
      assert bs[|bs| - 1].bucketTs % 60 == 0;
    } else {
      assert stored + map[] == stored;
    }
  }

  /** No table of a run makes the queries of flush_15m or finalize_daily reach their limit. */
  lemma QueriesStayBelowLimit(stored: Table, ops: seq<Op>, key: string, start: int)
    requires Aligned(stored) && start % 60 == 0
    ensures |Scan(Run(stored, ops).table, key, start, start + 900)| <= 16
    ensures |Scan(Run(stored, ops).table, key, start, start + 86400)| <= 1441
  {
    hide Aligned, Run, RunTrace, TableOf, Scan;
    RunIsTrace(stored, ops);
    RunInWholeMinutes(ops);
    WholeMinutesAligned(stored, RunTrace(ops).batches);
    ScanLength(Run(stored, ops).table, key, start, start + 900);
    ScanLength(Run(stored, ops).table, key, start, start + 86400);
  }

  // Tables that are a group-by.

  function GroupOrigin(samples: seq<MetricSample>): Origin {
    map p | p in GroupKeys(samples) :: Group(samples, p.0, p.1)
  }

  lemma GroupByIsBacked(samples: seq<MetricSample>)
    ensures Backed(GroupBy(samples), GroupOrigin(samples))
  {
    hide RowOf, Group, GroupKeys;
    forall p | p in GroupKeys(samples) ensures Group(samples, p.0, p.1) != [] {
      GroupKeysMember(samples, p.0, p.1);
    }
  }

  predicate MinuteWithin(s: MetricSample, start: int, end: int) {
    start <= Bucket1m(s.ts) <= end
  }

  /** The samples of one key whose minute lies in start..end, in order of arrival. */
  function Within(samples: seq<MetricSample>, key: string, start: int, end: int): seq<MetricSample> {
    if samples == [] then []
    else
      var last := samples[|samples| - 1];
      Within(samples[..|samples| - 1], key, start, end)
      + (if last.key == key && MinuteWithin(last, start, end) then [last] else [])
  }

  lemma FoldOne(samples: seq<MetricSample>, s: MetricSample, taken: bool)
    ensures Fold(samples + if taken then [s] else []) == if taken then Add(Fold(samples), s) else Fold(samples)
  {
    assert (samples + [s])[..|samples|] == samples && samples + [] == samples;
  }

  /** One more minute at the end of the window merges the bucket of that minute. */
  lemma {:induction false} WithinOneMore(samples: seq<MetricSample>, key: string, start: int, end: int)
    requires start <= end
    ensures Fold(Within(samples, key, start, end))
            == Merge(Fold(Within(samples, key, start, end - 1)), Fold(Group(samples, end, key)))
  {
    hide Bucket1m, Fold, Merge, Add;
    if samples == [] {
      MergeNothing();
    } else {
      var init, last := samples[..|samples| - 1], samples[|samples| - 1];
      WithinOneMore(init, key, start, end);
      var w, g := Within(init, key, start, end - 1), Group(init, end, key);
      FoldOne(Within(init, key, start, end), last, last.key == key && MinuteWithin(last, start, end));
      FoldOne(w, last, last.key == key && MinuteWithin(last, start, end - 1));
      FoldOne(g, last, last.key == key && Bucket1m(last.ts) == end);
      MergeAddLeft(Fold(w), Fold(g), last);
      MergeAddRight(Fold(w), Fold(g), last);
    }
  }

  lemma MergeNothing()
    ensures Fold([]) == Merge(Fold([]), Fold([]))
  {
  }

  lemma {:induction false} WithinEmpty(samples: seq<MetricSample>, key: string, start: int, end: int)
    requires end < start
    ensures Within(samples, key, start, end) == []
  {
    if samples != [] {
      WithinEmpty(samples[..|samples| - 1], key, start, end);
    }
  }

  /** The samples behind a group-by table are the samples of the window, up to their order. */
  lemma {:induction false} BehindIsWithin(samples: seq<MetricSample>, key: string, start: int, end: int)
    ensures Fold(Behind(GroupOrigin(samples), key, start, end)) == Fold(Within(samples, key, start, end))
    decreases end - start + 1
  {
    hide Group, Within, GroupKeys, Fold, Merge;
    if end < start {
      WithinEmpty(samples, key, start, end);
    } else {
      var origin := GroupOrigin(samples);
      BehindIsWithin(samples, key, start, end - 1);
      WithinOneMore(samples, key, start, end);
      GroupKeysMember(samples, end, key);
      FoldConcat(Behind(origin, key, start, end - 1), Group(samples, end, key));
      assert Behind(origin, key, start, end) == Behind(origin, key, start, end - 1) + Group(samples, end, key);
    }
  }

  /** Rolling up the rows of a group-by table is aggregating the raw samples of the window. */
  lemma RollupOfGroupBy(samples: seq<MetricSample>, key: string, start: int, end: int)
    ensures var data, raw := Scan(GroupBy(samples), key, start, end), Within(samples, key, start, end);
            && (data == [] <==> raw == [])
            && (data != [] ==> Rollup(data, key, start) == ToAggregate(Fold(raw), key, start))
  {
    GroupByIsBacked(samples);
    RollupIsDirect(GroupBy(samples), GroupOrigin(samples), key, start, end);
    BehindIsWithin(samples, key, start, end);
    hide Rollup, Within, Behind, Scan, GroupBy, GroupOrigin;
  }

  /** The samples of one key with start <= ts < end, in order of arrival. */
  function Between(samples: seq<MetricSample>, key: string, start: int, end: int): seq<MetricSample> {
    if samples == [] then []
    else
      var last := samples[|samples| - 1];
      Between(samples[..|samples| - 1], key, start, end)
      + (if last.key == key && start <= last.ts < end then [last] else [])
  }

  lemma MinuteWithinIsBetween(s: MetricSample, start: int, end: int)
    requires s.ts >= 0 && start % 60 == 0 && end % 60 == 0
    ensures MinuteWithin(s, start, end) <==> start <= s.ts < end + 60
  {
    hide Bucket1m;
    BucketIsFloor(s.ts);
    MultiplesApart(start, Bucket1m(s.ts));
    MultiplesApart(Bucket1m(s.ts), end);
  }

  lemma MultiplesApart(x: int, y: int)
    requires x % 60 == 0 && y % 60 == 0
    ensures x < y + 60 ==> x <= y
  {
    var d := (x - y) / 60;
    assert x - y == 60 * d;
  }

  lemma {:induction false} WithinIsBetween(samples: seq<MetricSample>, key: string, start: int, end: int)
    requires NonNegativeTimes(samples, key) && start % 60 == 0 && end % 60 == 0
    ensures Within(samples, key, start, end) == Between(samples, key, start, end + 60)
  {
    hide MinuteWithin;
    if samples != [] {
      var init, last := samples[..|samples| - 1], samples[|samples| - 1];
      assert forall i :: 0 <= i < |init| ==> init[i] == samples[i];
      WithinIsBetween(init, key, start, end);
      assert samples[|samples| - 1] == last;
      if last.key == key {
        MinuteWithinIsBetween(last, start, end);
      }
    }
  }

  /**
   An uninterrupted run on top of the group-by of earlier samples, none of a minute and key that it
   meets again.
   */
  ghost predicate Complete(earlier: seq<MetricSample>, ops: seq<Op>) {
    Uninterrupted(ops) && GroupKeys(earlier) !! GroupKeys(SamplesOf(ops))
  }

  function AllOf(earlier: seq<MetricSample>, ops: seq<Op>): seq<MetricSample> {
    earlier + SamplesOf(ops)
  }

  /** The samples that have been flushed: all but those of the minute that is still pending. */
  function Flushed(earlier: seq<MetricSample>, ops: seq<Op>): seq<MetricSample> {
    earlier + AllSamples(RunTrace(ops).batches)
  }

  lemma FlushedAndPending(earlier: seq<MetricSample>, ops: seq<Op>)
    ensures AllOf(earlier, ops) == Flushed(earlier, ops) + RunTrace(ops).pending
  {
    hide Run, RunTrace, SamplesOf, AllSamples;
    RunIsTrace(map[], ops);
  }

  /** At any moment of an uninterrupted run, what has been flushed is faithful and what is pending is of one minute. */
  lemma UninterruptedSoFar(ops: seq<Op>)
    requires Uninterrupted(ops)
    ensures Faithful(RunTrace(ops).batches)
    ensures InMinute(Batch(RunTrace(ops).current, RunTrace(ops).pending), RunTrace(ops).current)
  {
    hide Faithful, InMinute, Uninterrupted, RunTrace, FaithfulSoFar;
    var t := RunTrace(ops);
    FaithfulCalls(ops);
    FaithfulSoFarIs(t);
    FaithfulExtended(t.batches, Batch(t.current, t.pending));
  }

  /** At any moment of a complete run the stored table is the group-by of all samples flushed so far. */
  lemma CompleteRunIsGroupBy(earlier: seq<MetricSample>, ops: seq<Op>)
    requires Complete(earlier, ops)
    ensures Run(GroupBy(earlier), ops).table == GroupBy(Flushed(earlier, ops))
  {
    hide Uninterrupted, Faithful, Run, RunTrace, TableOf, GroupBy, GroupKeys, AllSamples, SamplesOf;
    var t := RunTrace(ops);
    var flushed := AllSamples(t.batches);
    RunIsTrace(GroupBy(earlier), ops);
    UninterruptedSoFar(ops);
    FaithfulIsGroupBy(t.batches);
    GroupKeysConcat(flushed, t.pending);
    GroupBysCombine(map[], earlier, flushed);
    var x, z := GroupBy(earlier), GroupBy(Flushed(earlier, ops));
    assert map[] + x == x && map[] + z == z;
  }

  lemma GroupByAligned(samples: seq<MetricSample>)
    ensures Aligned(GroupBy(samples))
  {
    hide RowOf, Group;
    forall p | p in GroupKeys(samples) ensures p.0 % 60 == 0 {
      var i :| 0 <= i < |samples| && p == (Bucket1m(samples[i].ts), samples[i].key);
      BucketIsFloor(samples[i].ts);
    }
  }

  /** The samples of the key have no negative timestamps. */
  ghost predicate NonNegativeTimes(samples: seq<MetricSample>, key: string) {
    forall i :: 0 <= i < |samples| && samples[i].key == key ==> samples[i].ts >= 0
  }

  lemma {:induction false} WithinConcat(a: seq<MetricSample>, b: seq<MetricSample>, key: string, start: int, end: int)
    ensures Within(a + b, key, start, end) == Within(a, key, start, end) + Within(b, key, start, end)
  {
    hide MinuteWithin;
    if b == [] {
      assert a + b == a;
    } else {
      WithinConcat(a, b[..|b| - 1], key, start, end);
      assert (a + b)[..|a + b| - 1] == a + b[..|b| - 1];
    }
  }

  lemma {:induction false} WithinOneMinute(samples: seq<MetricSample>, m: int, key: string, start: int, end: int)
    requires InMinute(Batch(m, samples), m)
    ensures Within(samples, key, start, end) == if start <= m <= end then OfKey(samples, key) else []
  {
    hide Bucket1m;
    if samples != [] {
      var init := samples[..|samples| - 1];
      assert forall i :: 0 <= i < |init| ==> init[i] == samples[i];
      WithinOneMinute(init, m, key, start, end);
      assert Bucket1m(samples[|samples| - 1].ts) == m;
    }
  }

  /** Samples of the key in these minutes have come but are not stored yet. */
  ghost predicate HeldBack(ops: seq<Op>, key: string, start: int, end: int) {
    var t := RunTrace(ops);
    OfKey(t.pending, key) != [] && start <= t.current <= end
  }

  /** The samples flushed in a window of minutes are all that have come if and only if none is held back. */
  lemma HeldBackExactly(earlier: seq<MetricSample>, ops: seq<Op>, key: string, start: int, end: int)
    requires Uninterrupted(ops)
    ensures Within(Flushed(earlier, ops), key, start, end) == Within(AllOf(earlier, ops), key, start, end)
            <==> !HeldBack(ops, key, start, end)
  {
    hide Uninterrupted, RunTrace, Within, Flushed, AllOf, OfKey, InMinute, Faithful;
    var t := RunTrace(ops);
    FlushedAndPending(earlier, ops);
    UninterruptedSoFar(ops);
    WithinConcat(Flushed(earlier, ops), t.pending, key, start, end);
    WithinOneMinute(t.pending, t.current, key, start, end);
    assert Within(Flushed(earlier, ops), key, start, end) + [] == Within(Flushed(earlier, ops), key, start, end);
  }

  /** The flushed samples of a window of minutes, as an interval of timestamps, and whether they are all. */
  lemma FlushedWindow(earlier: seq<MetricSample>, ops: seq<Op>, key: string, start: int, end: int)
    requires Uninterrupted(ops) && NonNegativeTimes(AllOf(earlier, ops), key) && start % 60 == 0 && end % 60 == 0
    ensures var raw := Between(Flushed(earlier, ops), key, start, end + 60);
            && Within(Flushed(earlier, ops), key, start, end) == raw
            && (raw == Between(AllOf(earlier, ops), key, start, end + 60) <==> !HeldBack(ops, key, start, end))
  {
    hide Uninterrupted, RunTrace, Within, Between, Flushed, AllOf, HeldBack;
    FlushedAndPending(earlier, ops);
    FirstPart(Flushed(earlier, ops), RunTrace(ops).pending, key);
    WithinIsBetween(Flushed(earlier, ops), key, start, end);
    WithinIsBetween(AllOf(earlier, ops), key, start, end);
    HeldBackExactly(earlier, ops, key, start, end);
  }

  lemma FirstPart(a: seq<MetricSample>, b: seq<MetricSample>, key: string)
    requires NonNegativeTimes(a + b, key)
    ensures NonNegativeTimes(a, key)
  {
    assert forall i :: 0 <= i < |a| ==> a[i] == (a + b)[i];
  }

  /**
   End to end, at any moment of every complete run, with a minute pending or not: the fifteen-minute
   row of the window that starts at `start` is the aggregate of the key's flushed samples from start up
   to start + 960 seconds: sixteen minutes, because the query also takes the row at its end. These are
   all the samples of that time exactly if none of them is still held back.
   */
  lemma QuarterHourOfRun(earlier: seq<MetricSample>, ops: seq<Op>, key: string, start: int)
    requires Complete(earlier, ops) && NonNegativeTimes(AllOf(earlier, ops), key) && start % 60 == 0
    ensures var data := Scan(Run(GroupBy(earlier), ops).table, key, start, start + 900);
            var raw := Between(Flushed(earlier, ops), key, start, start + 960);
            && (data == [] <==> raw == [])
            && (data != [] ==> Rollup(data, key, start) == ToAggregate(Fold(raw), key, start))
            && (raw == Between(AllOf(earlier, ops), key, start, start + 960)
                <==> !HeldBack(ops, key, start, start + 900))
  {
    hide Uninterrupted, NonNegativeTimes, AllOf, Flushed, Scan, Rollup, Fold, GroupBy, Run, HeldBack;
    CompleteRunIsGroupBy(earlier, ops);
    RollupOfGroupBy(Flushed(earlier, ops), key, start, start + 900);
    FlushedWindow(earlier, ops, key, start, start + 900);
  }

  /** One more flush stores everything and holds nothing back. */
  lemma FlushHoldsNothingBack(stored: Table, ops: seq<Op>, key: string, start: int, end: int)
    ensures var flushed := ops + [Flush];
            && Run(stored, flushed).table == FinalTable(stored, ops) && SamplesOf(flushed) == SamplesOf(ops)
            && (Uninterrupted(flushed) <==> Uninterrupted(ops)) && !HeldBack(flushed, key, start, end)
  {
    hide Uninterrupted, HeldBack;
    UninterruptedExtended(ops, Flush);
    hide Rows, TraceFlush;
    assert (ops + [Flush])[..|ops|] == ops;
    NoneHeldBack(ops, key, start, end);
  }

  lemma NoneHeldBack(ops: seq<Op>, key: string, start: int, end: int)
    ensures !HeldBack(ops + [Flush], key, start, end)
  {
    assert (ops + [Flush])[..|ops|] == ops;
  }

  /**
   The half-open window start <= minute < start + 900 that the bucket boundaries suggest is what the
   row holds if and only if the key has no one-minute row at start + 900.
   */
  lemma HalfOpenExactlyWithoutEndRow(samples: seq<MetricSample>, key: string, start: int)
    requires Scan(GroupBy(samples), key, start, start + 900) != []
    ensures Rollup(Scan(GroupBy(samples), key, start, start + 900), key, start)
            == ToAggregate(Fold(Within(samples, key, start, start + 899)), key, start)
            <==> (start + 900, key) !in GroupBy(samples)
  {
    RollupOfGroupBy(samples, key, start, start + 900);
    WithinOneMore(samples, key, start, start + 900);
    GroupKeysMember(samples, start + 900, key);
    assert (start + 900, key) in GroupBy(samples) <==> (start + 900, key) in GroupKeys(samples);
    hide Rollup, Within, Scan, Group, GroupKeys, GroupBy;
  }
}
