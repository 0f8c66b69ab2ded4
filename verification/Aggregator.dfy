/** The aggregator of src/metrics/aggregator.cpp. */
module Aggregation {
  import opened Wrappers
  import opened Types
  import opened RegistrySpec
  import opened Registry
  import RollupSpec
  import opened MinuteRuns
  import opened HistorySpec
  import opened DailyEnergy
  import opened StorageTables

  class WorkingBucket {
    var minVal: real
    var maxVal: real
    var sum: real
    var count: nat
    var worstQuality: Quality

    ghost function Value(): RollupSpec.Bucket
      reads this
    {
      RollupSpec.Bucket(minVal, maxVal, sum, count, worstQuality)
    }

    constructor ()
      ensures Value() == RollupSpec.EMPTY
    {
      minVal, maxVal, sum, count, worstQuality := 0.0, 0.0, 0.0, 0, Measured;
    }

    method Add(value: real, quality: Quality)
      modifies this
      ensures Value() == RollupSpec.Add(old(Value()), MetricSample("", value, "", quality, 0))
    {
      if count == 0 {
        minVal, maxVal, sum := value, value, value;
      } else {
        minVal := if value < minVal then value else minVal;
        maxVal := if maxVal < value then value else maxVal;
        sum := sum + value;
      }
      count := count + 1;
      if quality.Rank() > worstQuality.Rank() {
        worstQuality := quality;
      }
    }

    method ToAggregate(key: string, ts: int) returns (agg: MetricAggregate)
      ensures agg == RollupSpec.ToAggregate(Value(), key, ts)
    {
      var avg := if count > 0 then sum / (count as real) else 0.0;
      agg := MetricAggregate(key, ts, minVal, maxVal, avg, count, worstQuality);
    }

    method Reset()
      modifies this
      ensures Value() == RollupSpec.EMPTY
    {
      minVal, maxVal, sum := 0.0, 0.0, 0.0;
      count := 0;
      worstQuality := Measured;
    }
  }

  // The rows that a flush has collected after visiting some of the keys.

  function RowsFor(b: Batch, done: set<string>): RollupSpec.Table {
    map p | p in BatchKeys(b) && p.1 in done :: RollupSpec.RowOf(RollupSpec.OfKey(b.samples, p.1))
  }

  lemma RowsForAll(b: Batch, keys: set<string>)
    requires KeysOf(b.samples) <= keys
    ensures RowsFor(b, keys) == Rows(b) && RowsFor(b, {}) == map[]
  {
  }

  lemma UpsertLast(t: RollupSpec.Table, aggregates: seq<MetricAggregate>, a: MetricAggregate)
    ensures RollupSpec.UpsertAll(t, aggregates + [a]) == RollupSpec.Upsert(RollupSpec.UpsertAll(t, aggregates), a)
  {
    assert (aggregates + [a])[..|aggregates|] == aggregates;
  }

  lemma RowsForStep(b: Batch, done: set<string>, k: string)
    ensures RowsFor(b, done + {k})
            == if RollupSpec.OfKey(b.samples, k) == [] then RowsFor(b, done)
               else RowsFor(b, done)[(b.bucketTs, k) := RollupSpec.RowOf(RollupSpec.OfKey(b.samples, k))]
  {
    hide RollupSpec.OfKey, KeysOf, RollupSpec.RowOf;
    MatchesOfKey(b, k);
  }

  lemma UpsertBucket(t: RollupSpec.Table, samples: seq<MetricSample>, k: string, ts: int)
    ensures RollupSpec.Upsert(t, RollupSpec.ToAggregate(RollupSpec.Fold(samples), k, ts))
            == t[(ts, k) := RollupSpec.RowOf(samples)]
  {
  }

  lemma OverwriteLast(t: RollupSpec.Table, u: RollupSpec.Table, p: (int, string), row: RollupSpec.StoredRow)
    ensures (t + u)[p := row] == t + u[p := row]
  {
  }

  /** Visiting one more key: a key without samples gives no row. */
  lemma FlushOne(t: RollupSpec.Table, b: Batch, done: set<string>, k: string, aggregates: seq<MetricAggregate>)
    requires RollupSpec.UpsertAll(t, aggregates) == t + RowsFor(b, done)
    ensures var bucket := RollupSpec.Fold(RollupSpec.OfKey(b.samples, k));
            var agg := RollupSpec.ToAggregate(bucket, k, b.bucketTs);
            var aggregates' := if bucket.count > 0 then aggregates + [agg] else aggregates;
            RollupSpec.UpsertAll(t, aggregates') == t + RowsFor(b, done + {k})
  {
    hide RollupSpec.OfKey, RollupSpec.UpsertAll, RollupSpec.Upsert, RollupSpec.ToAggregate, RollupSpec.Fold,
      RollupSpec.RowOf, RowsFor;
    var own := RollupSpec.OfKey(b.samples, k);
    RowsForStep(b, done, k);
    if own != [] {
      UpsertLast(t, aggregates, RollupSpec.ToAggregate(RollupSpec.Fold(own), k, b.bucketTs));
      UpsertBucket(t + RowsFor(b, done), own, k, b.bucketTs);
      OverwriteLast(t, RowsFor(b, done), (b.bucketTs, k), RollupSpec.RowOf(own));
    }
  }

  lemma AddReadsTwoFields(s: MetricSample)
    ensures forall b :: RollupSpec.Add(b, MetricSample("", s.value, "", s.quality, 0)) == RollupSpec.Add(b, s)
  {
  }

  lemma OfKeyExtended(samples: seq<MetricSample>, s: MetricSample, k: string)
    ensures RollupSpec.Fold(RollupSpec.OfKey(samples + [s], k))
            == if s.key == k then RollupSpec.Add(RollupSpec.Fold(RollupSpec.OfKey(samples, k)), s)
               else RollupSpec.Fold(RollupSpec.OfKey(samples, k))
  {
    var own := RollupSpec.OfKey(samples, k);
    assert (samples + [s])[..|samples|] == samples;
    assert (own + [s])[..|own|] == own && own + [] == own;
  }

  // The rows that a fifteen-minute rollup writes.

  ghost function QuarterData(t: RollupSpec.Table, key: string, start: int): seq<MetricAggregate> {
    Limited(Scan(t, key, start, start + 900), HISTORY_LIMIT)
  }

  /** One row for every registered key with one-minute rows in the window. */
  ghost function QuarterRows(t: RollupSpec.Table, keys: set<string>, start: int): RollupSpec.Table {
    map k | k in QuarterKeys(t, keys, start) :: RollupSpec.Store(Rollup(QuarterData(t, k.1, start), k.1, start))
  }

  ghost function QuarterKeys(t: RollupSpec.Table, keys: set<string>, start: int): (s: set<(int, string)>)
    ensures forall p :: p in s ==> QuarterData(t, p.1, start) != []
  {
    set k | k in keys && QuarterData(t, k, start) != [] :: (start, k)
  }

  function KeysOfInfos(infos: seq<MetricInfo>): set<string> {
    set i | 0 <= i < |infos| :: infos[i].key
  }

  lemma InfoListKeys(v: View, infos: seq<MetricInfo>)
    requires IsInfoList(v, infos)
    ensures KeysOfInfos(infos) == v.Keys
  {
  }

  lemma QuarterRowsStep(t: RollupSpec.Table, keys: set<string>, k: string, start: int)
    ensures var data := QuarterData(t, k, start);
            QuarterRows(t, keys + {k}, start)
            == if data == [] then QuarterRows(t, keys, start)
               else QuarterRows(t, keys, start)[(start, k) := RollupSpec.Store(Rollup(data, k, start))]
  {
    hide QuarterData, RollupSpec.Store, Rollup;
  }

  lemma UpsertRollup(t: RollupSpec.Table, data: seq<MetricAggregate>, k: string, start: int)
    requires data != []
    ensures RollupSpec.Upsert(t, Rollup(data, k, start)) == t[(start, k) := RollupSpec.Store(Rollup(data, k, start))]
  {
    hide RollupSpec.Store;
  }

  lemma QuarterOne(t15: RollupSpec.Table, t: RollupSpec.Table, keys: set<string>, k: string, start: int,
                   aggregates: seq<MetricAggregate>)
    requires RollupSpec.UpsertAll(t15, aggregates) == t15 + QuarterRows(t, keys, start)
    ensures var data := QuarterData(t, k, start);
            var aggregates' := if data != [] then aggregates + [Rollup(data, k, start)] else aggregates;
            RollupSpec.UpsertAll(t15, aggregates') == t15 + QuarterRows(t, keys + {k}, start)
  {
    hide RollupSpec.UpsertAll, RollupSpec.Upsert, QuarterData, RollupSpec.Store, Rollup, QuarterRows;
    var data := QuarterData(t, k, start);
    QuarterRowsStep(t, keys, k, start);
    if data != [] {
      var row := Rollup(data, k, start);
      UpsertLast(t15, aggregates, row);
      UpsertRollup(t15 + QuarterRows(t, keys, start), data, k, start);
      OverwriteLast(t15, QuarterRows(t, keys, start), (start, k), RollupSpec.Store(row));
    }
  }

  class Aggregator {
    const registry: MetricRegistry
    const storage: Storage
    var buckets: map<string, WorkingBucket>
    var currentBucketTs: int
    ghost var pending: seq<MetricSample>

    ghost predicate Valid()
      reads this, buckets.Values
    {
      && (forall j, k :: j in buckets && k in buckets && j != k ==> buckets[j] != buckets[k])
      && (forall k :: k in buckets ==> buckets[k].Value() == RollupSpec.Fold(RollupSpec.OfKey(pending, k)))
      && KeysOf(pending) <= buckets.Keys
    }

    /** The aggregator together with its one-minute table. */
    ghost function Value(): State
      reads this, storage
    {
      State(currentBucketTs, pending, storage.metric1m)
    }

    constructor (registry: MetricRegistry, storage: Storage)
      ensures Valid() && this.registry == registry && this.storage == storage && fresh(buckets.Values)
      ensures Value() == State(0, [], storage.metric1m)
    {
      this.registry := registry;
      this.storage := storage;
      buckets := map[];
      currentBucketTs := 0;
      pending := [];
    }

    method Accumulate(sample: MetricSample)
      requires Valid()
      modifies this, buckets.Values, storage`metric1m
      ensures Valid() && fresh(buckets.Values - old(buckets.Values))
      ensures Value() == AccumulateStep(old(Value()), sample)
    {
      hide RollupSpec.Fold, RollupSpec.OfKey, RollupSpec.Bucket1m, Rows;
      var bts := RollupSpec.Bucket1m(sample.ts);
      if currentBucketTs != 0 && bts != currentBucketTs {
        Flush1m();
      }
      currentBucketTs := bts;
      AddSample(sample);
    }

    method AddSample(sample: MetricSample)
      requires Valid()
      modifies this`buckets, this`pending, buckets.Values
      ensures Valid() && fresh(buckets.Values - old(buckets.Values))
      ensures pending == old(pending) + [sample]
    {
      hide RollupSpec.Fold, RollupSpec.OfKey, KeysOf, RollupSpec.Add;
      EnsureBucket(sample.key);
      AddReadsTwoFields(sample);
      MoreSamples(0, pending, sample);
      ghost var all := pending + [sample];
      forall k
        ensures RollupSpec.Fold(RollupSpec.OfKey(all, k))
                == if sample.key == k then RollupSpec.Add(RollupSpec.Fold(RollupSpec.OfKey(pending, k)), sample)
                   else RollupSpec.Fold(RollupSpec.OfKey(pending, k))
      {
        OfKeyExtended(pending, sample, k);
      }
      buckets[sample.key].Add(sample.value, sample.quality);
      pending := all;
    }

    /** What operator[] of the map does for a new key. */
    method EnsureBucket(key: string)
      requires Valid()
      modifies this`buckets
      ensures Valid() && key in buckets && fresh(buckets.Values - old(buckets.Values))
    {
      hide RollupSpec.Fold, RollupSpec.OfKey, KeysOf;
      if key !in buckets {
        MatchesOfKey(Batch(0, pending), key);
        var bucket := new WorkingBucket();
        buckets := buckets[key := bucket];
      }
    }

    method Flush1m()
      requires Valid()
      modifies this`pending, buckets.Values, storage`metric1m
      ensures Valid() && Value() == FlushStep(old(Value()))
    {
      hide RollupSpec.Fold, RollupSpec.OfKey, RollupSpec.UpsertAll, Rows, RowsFor, KeysOf, RollupSpec.ToAggregate;
      ghost var batch := Batch(currentBucketTs, pending);
      RowsForAll(batch, buckets.Keys);
      var aggregates: seq<MetricAggregate> := [];
      assert RollupSpec.UpsertAll(storage.metric1m, []) == storage.metric1m by { UpsertNothing(storage.metric1m); }
      var todo := buckets.Keys;
      assert buckets.Keys - todo == {};
      while todo != {}
        invariant todo <= buckets.Keys
        invariant RollupSpec.UpsertAll(storage.metric1m, aggregates)
                  == storage.metric1m + RowsFor(batch, buckets.Keys - todo)
        decreases todo
        modifies {}
      {
        var k :| k in todo;
        FlushOne(storage.metric1m, batch, buckets.Keys - todo, k, aggregates);
        assert buckets.Keys - todo + {k} == buckets.Keys - (todo - {k});
        if buckets[k].count > 0 {
          var agg := buckets[k].ToAggregate(k, currentBucketTs);
          aggregates := aggregates + [agg];
        }
        todo := todo - {k};
      }
      assert buckets.Keys - todo == buckets.Keys;
      if aggregates != [] {
        storage.Write1m(aggregates);
      }
      ResetBuckets();
    }

    method ResetBuckets()
      requires Valid()
      modifies this`pending, buckets.Values
      ensures Valid() && pending == []
    {
      var todo := buckets.Keys;
      while todo != {}
        invariant todo <= buckets.Keys
        invariant forall k :: k in buckets.Keys - todo ==> buckets[k].Value() == RollupSpec.EMPTY
        decreases todo
      {
        var k :| k in todo;
        buckets[k].Reset();
        todo := todo - {k};
      }
      pending := [];
    }

    /** The row of one key from its one-minute rows. */
    method RollupRows(data: seq<MetricAggregate>, key: string, bucketStart: int) returns (agg: MetricAggregate)
      requires data != []
      ensures agg == Rollup(data, key, bucketStart)
    {
      hide MinOf, MaxOf, WeightedSum, TotalSamples, WorstOf;
      RollupEmpty();
      var minValue, maxValue := data[0].minValue, data[0].maxValue;
      var sum, totalSamples, worst := 0.0, 0, Measured;
      for i := 0 to |data|
        invariant i == 0 ==> minValue == data[0].minValue && maxValue == data[0].maxValue
        invariant i > 0 ==> minValue == MinOf(data[..i]) && maxValue == MaxOf(data[..i])
        invariant sum == WeightedSum(data[..i]) && totalSamples == TotalSamples(data[..i])
                  && worst == WorstOf(data[..i])
      {
        var d := data[i];
        RollupExtended(data[..i], d);
        assert data[..i] + [d] == data[..i + 1];
        minValue := if d.minValue < minValue then d.minValue else minValue;
        maxValue := if maxValue < d.maxValue then d.maxValue else maxValue;
        sum := sum + d.avgValue * (d.sampleCount as real);
        totalSamples := totalSamples + d.sampleCount;
        if d.quality.Rank() > worst.Rank() {
          worst := d.quality;
        }
      }
      assert data[..|data|] == data;
      var avg := if totalSamples > 0 then sum / (totalSamples as real) else 0.0;
      agg := MetricAggregate(key, bucketStart, minValue, maxValue, avg, totalSamples, worst);
    }

    /** Stores the fifteen-minute rows of the last full quarter of an hour before `now`. */
    method Flush15m(now: int)
      requires registry.Valid()
      modifies storage`metric15m
      ensures storage.metric15m ==
              old(storage.metric15m)
              + QuarterRows(storage.metric1m, registry.view.Keys, RollupSpec.Bucket15m(now) - 900)
    {
      hide RollupSpec.UpsertAll, QuarterRows, KeysOfInfos, IsInfoList, Scan, Rollup, RollupSpec.Bucket15m;
      var bucketEnd := RollupSpec.Bucket15m(now);
      var bucketStart := bucketEnd - 900;
      var metrics := registry.AllMetrics();
      InfoListKeys(registry.view, metrics);
      ghost var t := storage.metric1m;
      var aggregates: seq<MetricAggregate> := [];
      UpsertNothing(storage.metric15m);
      NoInfos(storage.metric15m, t, bucketStart, metrics);
      for i := 0 to |metrics|
        invariant RollupSpec.UpsertAll(storage.metric15m, aggregates)
                  == storage.metric15m + QuarterRows(t, KeysOfInfos(metrics[..i]), bucketStart)
        modifies {}
      {
        var info := metrics[i];
        var data := storage.QueryHistory("metric_1m", info.key, bucketStart, bucketEnd, HISTORY_LIMIT);
        QuarterOne(storage.metric15m, t, KeysOfInfos(metrics[..i]), info.key, bucketStart, aggregates);
        NextInfo(metrics, i);
        if data != [] {
          var agg := RollupRows(data, info.key, bucketStart);
          aggregates := aggregates + [agg];
        }
      }
      assert metrics[..|metrics|] == metrics;
      if aggregates != [] {
        storage.Write15m(aggregates);
      }
    }

    /** `dayStart` is the day's first second as mktime gives it, None when the date is not valid. */
    method FinalizeDaily(day: string, dayStart: Option<int>)
      modifies storage`energyDaily
      ensures storage.energyDaily ==
              match dayStart
              case None => old(storage.energyDaily)
              case Some(start) =>
                var data := Limited(Scan(storage.metric1m, "power.current_w", start, start + 86400), 10000);
                old(storage.energyDaily)[day := Day(data)]
    {
      hide Scan;
      if dayStart.None? {
        return;
      }
      var startTs := dayStart.value;
      var endTs := startTs + 86400;
      var data := storage.QueryHistory("metric_1m", POWER_KEY, startTs, endTs, HISTORY_LIMIT);
      var totalWh, peakW, sumW := 0.0, 0.0, 0.0;
      var activeSeconds, worst := 0, Measured;
      for i := 0 to |data|
        invariant totalWh == WattHours(data[..i]) && peakW == PeakOf(data[..i]) && sumW == WeightedSum(data[..i])
        invariant activeSeconds == 60 * i && worst == WorstOf(data[..i])
      {
        var agg := data[i];
        var watts := agg.avgValue;
        assert data[..i + 1][..i] == data[..i];
        totalWh := totalWh + watts * (60.0 / 3600.0);
        peakW := if peakW < agg.maxValue then agg.maxValue else peakW;
        sumW := sumW + watts * (agg.sampleCount as real);
        activeSeconds := activeSeconds + 60;
        if agg.quality.Rank() > worst.Rank() {
          worst := agg.quality;
        }
      }
      assert data[..|data|] == data;
      var avgW := if data == [] then 0.0 else sumW / ((if activeSeconds > 1 then activeSeconds else 1) as real);
      storage.WriteEnergyDaily(day, totalWh, avgW, peakW, 0.0, 0.0, activeSeconds, worst, true);
    }
  }

  const POWER_KEY := "power.current_w"

  lemma UpsertNothing(t: RollupSpec.Table)
    ensures RollupSpec.UpsertAll(t, []) == t
  {
  }

  lemma NoInfos(t15: RollupSpec.Table, t: RollupSpec.Table, start: int, infos: seq<MetricInfo>)
    ensures RollupSpec.UpsertAll(t15, []) == t15 + QuarterRows(t, KeysOfInfos(infos[..0]), start)
  {
    assert QuarterRows(t, {}, start) == map[];
  }

  lemma NextInfo(infos: seq<MetricInfo>, i: nat)
    requires i < |infos|
    ensures KeysOfInfos(infos[..i + 1]) == KeysOfInfos(infos[..i]) + {infos[i].key}
  {
    var a, b := infos[..i + 1], infos[..i];
    assert a == b + [infos[i]];
    forall x | x in KeysOfInfos(b) ensures x in KeysOfInfos(a) {
      var j :| 0 <= j < |b| && b[j].key == x;
      assert a[j].key == x;
    }
    assert a[i].key == infos[i].key;
  }
}

/** What the stored rows mean in terms of the samples, over whole runs. */
module AggregationLaws {
  import opened RollupSpec
  import opened MinuteRuns
  import opened HistorySpec
  import opened EndToEnd
  import opened DailyEnergy
  import opened StorageTables
  import opened Aggregation
  import opened Types

  /**
   What flush_15m adds at any moment of a complete run: for every registered key with flushed samples
   from start up to start + 960 seconds, the row over exactly these samples; they are all the samples
   of that time exactly if none is held back.
   */
  lemma QuarterRowsOfRun(earlier: seq<MetricSample>, ops: seq<Op>, keys: set<string>, start: int, k: string)
    requires Complete(earlier, ops) && NonNegativeTimes(AllOf(earlier, ops), k) && start % 60 == 0
    ensures var rows := QuarterRows(Run(GroupBy(earlier), ops).table, keys, start);
            var raw := Between(Flushed(earlier, ops), k, start, start + 960);
            && ((start, k) in rows <==> k in keys && raw != [])
            && ((start, k) in rows ==> rows[(start, k)] == RowOf(raw))
            && (raw == Between(AllOf(earlier, ops), k, start, start + 960) <==> !HeldBack(ops, k, start, start + 900))
  {
    hide Complete, Scan, Between, Rollup, AllOf, Flushed, HeldBack, Fold, NonNegativeTimes, Aligned, Run, GroupBy;
    var t := Run(GroupBy(earlier), ops).table;
    GroupByAligned(earlier);
    QueriesStayBelowLimit(GroupBy(earlier), ops, k, start);
    QuarterHourOfRun(earlier, ops, k, start);
    assert QuarterData(t, k, start) == Scan(t, k, start, start + 900);
  }

  /**
   The row that finalize_daily stores at any moment of a complete run, taking each sample as one
   second: mean times active time is the sum of the flushed samples from the day's start up to a minute
   past its end, the peak is their maximum, the quality their worst. If the day's minutes hold at most
   sixty samples, none negative, the energy is at least their sum, and equal to it exactly when every
   minute with power is full. The samples are all of the day exactly if none is held back.
   */
  lemma DayOfRun(earlier: seq<MetricSample>, ops: seq<Op>, key: string, start: int)
    requires Complete(earlier, ops) && NonNegativeTimes(AllOf(earlier, ops), key) && start % 60 == 0
    ensures var end, origin := start + 86400, GroupOrigin(Flushed(earlier, ops));
            var day := Day(Limited(Scan(Run(GroupBy(earlier), ops).table, key, start, end), HISTORY_LIMIT));
            var raw := Between(Flushed(earlier, ops), key, start, end + 60);
            && DayMeans(day, Fold(raw))
            && (PowerSamples(origin, key, start, end) ==>
                  EnergyMeans(day, Fold(raw), FullMinutes(origin, key, start, end)))
            && (raw == Between(AllOf(earlier, ops), key, start, end + 60) <==> !HeldBack(ops, key, start, end))
  {
    hide Uninterrupted, Scan, Between, AllOf, Flushed, HeldBack, Fold, NonNegativeTimes, Aligned, Run, GroupBy,
      GroupOrigin, PowerSamples, FullMinutes, Day, DayMeans, EnergyMeans;
    var flushed := Flushed(earlier, ops);
    GroupByAligned(earlier);
    QueriesStayBelowLimit(GroupBy(earlier), ops, key, start);
    CompleteRunIsGroupBy(earlier, ops);
    GroupByIsBacked(flushed);
    DayFromSamples(GroupBy(flushed), GroupOrigin(flushed), key, start, start + 86400);
    BehindIsWithin(flushed, key, start, start + 86400);
    FlushedWindow(earlier, ops, key, start, start + 86400);
  }
}
