/** History queries over a stored table, fifteen-minute rollups and the daily energy row. */
module HistorySpec {
  import opened Averages
  import opened Types
  import opened RollupSpec

  /** The rows of one key with start <= bucket_ts <= end, in ascending order of time. */
  function Scan(t: Table, key: string, start: int, end: int): seq<MetricAggregate>
    decreases end - start + 1
  {
    if end < start then []
    else Scan(t, key, start, end - 1) + RowAt(t, key, end)
  }

  function RowAt(t: Table, key: string, ts: int): seq<MetricAggregate> {
    if (ts, key) in t then [Load(key, ts, t[(ts, key)])] else []
  }

  /** SQLite's LIMIT; a negative limit means none. */
  function Limited(rows: seq<MetricAggregate>, limit: int): seq<MetricAggregate> {
    if 0 <= limit < |rows| then rows[..limit] else rows
  }

  ghost predicate Ascending(rows: seq<MetricAggregate>) {
    forall i, j :: 0 <= i < j < |rows| ==> rows[i].bucketTs < rows[j].bucketTs
  }

  ghost predicate Selected(t: Table, key: string, start: int, end: int, d: MetricAggregate) {
    start <= d.bucketTs <= end && (d.bucketTs, key) in t && d == Load(key, d.bucketTs, t[(d.bucketTs, key)])
  }

  /** Scan is the selection the query describes: ascending, and a row is in it iff it is selected. */
  lemma {:induction false} ScanSelects(t: Table, key: string, start: int, end: int)
    ensures Ascending(Scan(t, key, start, end))
    ensures forall d :: d in Scan(t, key, start, end) <==> Selected(t, key, start, end, d)
    decreases end - start + 1
  {
    hide Load;
    if end >= start {
      ScanSelects(t, key, start, end - 1);
      var init, row := Scan(t, key, start, end - 1), RowAt(t, key, end);
      assert Scan(t, key, start, end) == init + row;
      if (end, key) in t {
        LoadTimestamp(key, end, t[(end, key)]);
      }
      forall d ensures d in init + row <==> Selected(t, key, start, end, d) {
        assert d in row <==> d.bucketTs == end && Selected(t, key, start, end, d);
        assert d in init <==> d.bucketTs < end && Selected(t, key, start, end, d);
      }
      assert forall i :: 0 <= i < |init| ==> init[i] in init;
    }
  }

  lemma LoadTimestamp(key: string, ts: int, r: StoredRow)
    ensures Load(key, ts, r).bucketTs == ts
  {
  }

  lemma {:induction false} ScanSplit(t: Table, key: string, start: int, mid: int, end: int)
    requires start <= mid <= end + 1
    ensures Scan(t, key, start, end) == Scan(t, key, start, mid - 1) + Scan(t, key, mid, end)
    decreases end - mid + 1
  {
    if mid <= end {
      ScanSplit(t, key, start, mid, end - 1);
    }
  }

  // The rollup of a list of rows.

  function MinOf(data: seq<MetricAggregate>): real
    requires data != []
  {
    if |data| == 1 then data[0].minValue else Min(MinOf(data[..|data| - 1]), data[|data| - 1].minValue)
  }

  function MaxOf(data: seq<MetricAggregate>): real
    requires data != []
  {
    if |data| == 1 then data[0].maxValue else Max(MaxOf(data[..|data| - 1]), data[|data| - 1].maxValue)
  }

  /** The samples' sum, as far as a row tells it. */
  function Weight(d: MetricAggregate): real {
    d.avgValue * (d.sampleCount as real)
  }

  function WeightedSum(data: seq<MetricAggregate>): real {
    if data == [] then 0.0 else WeightedSum(data[..|data| - 1]) + Weight(data[|data| - 1])
  }

  function TotalSamples(data: seq<MetricAggregate>): int {
    if data == [] then 0 else TotalSamples(data[..|data| - 1]) + data[|data| - 1].sampleCount
  }

  function WorstOf(data: seq<MetricAggregate>): Quality {
    if data == [] then Measured else Worse(WorstOf(data[..|data| - 1]), data[|data| - 1].quality)
  }

  ghost predicate RowHasQuality(data: seq<MetricAggregate>, q: Quality) {
    exists i :: 0 <= i < |data| && data[i].quality == q
  }

  lemma RowHasQualityExtended(data: seq<MetricAggregate>, d: MetricAggregate, q: Quality)
    ensures RowHasQuality(data + [d], q) <==> RowHasQuality(data, q) || d.quality == q
  {
    var all := data + [d];
    assert all[|data|] == d && forall i :: 0 <= i < |data| ==> all[i] == data[i];
  }

  /** The quality of a rollup or of a day, in the same order of severity. */
  lemma {:induction false} WorstRowQuality(data: seq<MetricAggregate>)
    ensures WorstOf(data)
            == if RowHasQuality(data, Unknown) then Unknown
               else if RowHasQuality(data, Estimated) then Estimated
               else if RowHasQuality(data, Derived) then Derived
               else Measured
  {
    if data != [] {
      var init, d := data[..|data| - 1], data[|data| - 1];
      WorstRowQuality(init);
      assert init + [d] == data;
      hide RowHasQuality;
      RowHasQualityExtended(init, d, Unknown);
      RowHasQualityExtended(init, d, Estimated);
      RowHasQualityExtended(init, d, Derived);
    }
  }

  /** The fifteen-minute row of one key from its one-minute rows. */
  function Rollup(data: seq<MetricAggregate>, key: string, ts: int): MetricAggregate
    requires data != []
  {
    MetricAggregate(key, ts, MinOf(data), MaxOf(data), Average(WeightedSum(data), TotalSamples(data)),
                    TotalSamples(data), WorstOf(data))
  }

  // Aggregating aggregates.

  /** For every stored row, the raw samples it was made from. */
  type Origin = map<(int, string), seq<MetricSample>>

  ghost predicate Backed(t: Table, origin: Origin) {
    t.Keys == origin.Keys && forall p :: p in t ==> origin[p] != [] && t[p] == RowOf(origin[p])
  }

  /** The raw samples behind the rows that a query selects, minute by minute. */
  function Behind(origin: Origin, key: string, start: int, end: int): seq<MetricSample>
    decreases end - start + 1
  {
    if end < start then []
    else Behind(origin, key, start, end - 1) + (if (end, key) in origin then origin[(end, key)] else [])
  }

  lemma AverageTimesCount(sum: real, count: int)
    requires count > 0
    ensures Average(sum, count) * (count as real) == sum
  {
  }

  /** Reading back a stored bucket gives its extremes, its sum, its count and its worst quality. */
  lemma RowContribution(samples: seq<MetricSample>, key: string, ts: int)
    requires samples != []
    ensures var d, b := Load(key, ts, RowOf(samples)), Fold(samples);
            && d.minValue == b.minVal && d.maxValue == b.maxVal && d.sampleCount == b.count && d.quality == b.worst
            && Weight(d) == b.sum
  {
    hide Fold, Average, QualityToString, QualityFromString;
    AverageTimesCount(Fold(samples).sum, |samples|);
    QualityRoundTrip(Fold(samples).worst);
  }

  lemma RollupEmpty()
    ensures WeightedSum([]) == 0.0 && TotalSamples([]) == 0 && WorstOf([]) == Measured
  {
  }

  lemma RollupExtended(data: seq<MetricAggregate>, d: MetricAggregate)
    ensures var data' := data + [d];
            && MinOf(data') == (if data == [] then d.minValue else Min(MinOf(data), d.minValue))
            && MaxOf(data') == (if data == [] then d.maxValue else Max(MaxOf(data), d.maxValue))
            && WeightedSum(data') == WeightedSum(data) + Weight(d)
            && TotalSamples(data') == TotalSamples(data) + d.sampleCount
            && WorstOf(data') == Worse(WorstOf(data), d.quality)
  {
    assert (data + [d])[..|data|] == data;
  }

  /** The five running values of the rollup over `data` are those of the bucket `b`. */
  ghost predicate SameValues(data: seq<MetricAggregate>, b: Bucket) {
    && (data == [] <==> b == EMPTY) && (b.count == 0 <==> b == EMPTY)
    && (data != [] ==> MinOf(data) == b.minVal && MaxOf(data) == b.maxVal)
    && WeightedSum(data) == b.sum && TotalSamples(data) == b.count && WorstOf(data) == b.worst
  }

  lemma SameValuesExtended(data: seq<MetricAggregate>, b: Bucket, d: MetricAggregate, c: Bucket)
    requires SameValues(data, b) && c.count > 0
    requires d.minValue == c.minVal && d.maxValue == c.maxVal && d.sampleCount == c.count && d.quality == c.worst
    requires Weight(d) == c.sum
    ensures SameValues(data + [d], Merge(b, c))
  {
    RollupExtended(data, d);
    hide MinOf, MaxOf, WeightedSum, TotalSamples, WorstOf, Weight;
    assert MinOf(data + [d]) == Merge(b, c).minVal;
  }

  lemma {:induction false} RollupValues(t: Table, origin: Origin, key: string, start: int, end: int)
    requires Backed(t, origin)
    ensures SameValues(Scan(t, key, start, end), Fold(Behind(origin, key, start, end)))
    decreases end - start + 1
  {
    hide SameValues, Load, RowOf, Fold, Merge, Weight;
    if end < start {
      NoRows();
    } else {
      RollupValues(t, origin, key, start, end - 1);
      var init, earlier := Scan(t, key, start, end - 1), Behind(origin, key, start, end - 1);
      if (end, key) in t {
        var d, added := Load(key, end, t[(end, key)]), origin[(end, key)];
        RowContribution(added, key, end);
        FoldConcat(earlier, added);
        SameValuesExtended(init, Fold(earlier), d, Fold(added));
        assert Scan(t, key, start, end) == init + [d];
        assert Behind(origin, key, start, end) == earlier + added;
      } else {
        assert Scan(t, key, start, end) == init;
        assert Behind(origin, key, start, end) == earlier;
      }
    }
  }

  lemma NoRows()
    ensures SameValues([], Fold([]))
  {
  }

  /**
   Two-level aggregation preserves meaning: the rollup of the selected one-minute rows, read back
   from the table, is the aggregate of all the raw samples behind them.
   */
  lemma RollupIsDirect(t: Table, origin: Origin, key: string, start: int, end: int)
    requires Backed(t, origin)
    ensures var data, samples := Scan(t, key, start, end), Behind(origin, key, start, end);
            && (data == [] <==> samples == [])
            && (data != [] ==> Rollup(data, key, start) == ToAggregate(Fold(samples), key, start))
  {
    RollupValues(t, origin, key, start, end);
  }

  // The two edges of the query.

  lemma {:induction false} TotalSamplesConcat(a: seq<MetricAggregate>, b: seq<MetricAggregate>)
    ensures TotalSamples(a + b) == TotalSamples(a) + TotalSamples(b)
  {
    if b == [] {
      assert a + b == a;
    } else {
      TotalSamplesConcat(a, b[..|b| - 1]);
      assert (a + b)[..|a + b| - 1] == a + b[..|b| - 1];
    }
  }

  /** The query is closed at both ends, so two windows that share an end both count the row there. */
  lemma SharedEndCountedTwice(t: Table, key: string, a: int, b: int, c: int)
    requires a <= b <= c
    ensures TotalSamples(Scan(t, key, a, b)) + TotalSamples(Scan(t, key, b, c))
            == TotalSamples(Scan(t, key, a, c)) + TotalSamples(RowAt(t, key, b))
  {
    ScanSplit(t, key, a, b, c);
    TotalSamplesConcat(Scan(t, key, a, b - 1), RowAt(t, key, b));
    TotalSamplesConcat(Scan(t, key, a, b - 1), Scan(t, key, b, c));
  }

  ghost predicate Aligned(t: Table) {
    forall p :: p in t ==> p.0 % 60 == 0
  }

  /** In a table of whole minutes a query selects at most one row a minute, so its limit of 10000 rows is far away. */
  lemma {:induction false} ScanLength(t: Table, key: string, start: int, end: int)
    requires Aligned(t) && start % 60 == 0 && start <= end
    ensures |Scan(t, key, start, end)| <= (end - start) / 60 + 1
    decreases end - start
  {
    hide Load;
    if end == start {
    } else {
      ScanLength(t, key, start, end - 1);
    }
  }
}
