/** Working buckets, one-minute rows and the table they are stored in. */
module RollupSpec {
  import opened Averages
  import opened Types

  /** C++ `%`: the remainder has the sign of the dividend. */
  function TruncMod(x: int, m: int): int
    requires m > 0
  {
    if x >= 0 then x % m else -((-x) % m)
  }

  function Bucket1m(ts: int): int {
    ts - TruncMod(ts, 60)
  }

  function Bucket15m(ts: int): int {
    ts - TruncMod(ts, 900)
  }

  /** The floor that the bucket functions promise holds exactly for non-negative or aligned timestamps. */
  lemma BucketIsFloor(ts: int)
    ensures Bucket1m(ts) % 60 == 0 && Bucket15m(ts) % 900 == 0
    ensures Bucket1m(ts) <= ts < Bucket1m(ts) + 60 <==> ts >= 0 || ts % 60 == 0
    ensures Bucket15m(ts) <= ts < Bucket15m(ts) + 900 <==> ts >= 0 || ts % 900 == 0
  {
    MinuteFloor(ts);
    QuarterFloor(ts);
  }

  lemma MinuteFloor(ts: int)
    ensures Bucket1m(ts) % 60 == 0
    ensures Bucket1m(ts) <= ts < Bucket1m(ts) + 60 <==> ts >= 0 || ts % 60 == 0
  {
    if ts < 0 {
      assert ts == -(60 * ((-ts) / 60) + (-ts) % 60);
    }
  }

  lemma QuarterFloor(ts: int)
    ensures Bucket15m(ts) % 900 == 0
    ensures Bucket15m(ts) <= ts < Bucket15m(ts) + 900 <==> ts >= 0 || ts % 900 == 0
  {
    if ts < 0 {
      assert ts == -(900 * ((-ts) / 900) + (-ts) % 900);
    }
  }

  datatype Bucket = Bucket(minVal: real, maxVal: real, sum: real, count: nat, worst: Quality)

  const EMPTY := Bucket(0.0, 0.0, 0.0, 0, Measured)

  function Min(x: real, y: real): real { if y < x then y else x }
  function Max(x: real, y: real): real { if x < y then y else x }
  function Worse(x: Quality, y: Quality): Quality { if y.Rank() > x.Rank() then y else x }

  /** One more sample. */
  function Add(b: Bucket, s: MetricSample): Bucket {
    if b.count == 0 then Bucket(s.value, s.value, s.value, 1, Worse(b.worst, s.quality))
    else Bucket(Min(b.minVal, s.value), Max(b.maxVal, s.value), b.sum + s.value, b.count + 1, Worse(b.worst, s.quality))
  }

  function Fold(samples: seq<MetricSample>): (b: Bucket)
    ensures b.count == |samples|
    ensures samples == [] <==> b == EMPTY
  {
    if samples == [] then EMPTY else Add(Fold(samples[..|samples| - 1]), samples[|samples| - 1])
  }

  function ToAggregate(b: Bucket, key: string, ts: int): MetricAggregate {
    MetricAggregate(key, ts, b.minVal, b.maxVal, Average(b.sum, b.count), b.count, b.worst)
  }

  /** The bucket over two lists of samples, from the buckets over each. */
  function Merge(x: Bucket, y: Bucket): Bucket {
    if x.count == 0 then y
    else if y.count == 0 then x
    else Bucket(Min(x.minVal, y.minVal), Max(x.maxVal, y.maxVal), x.sum + y.sum, x.count + y.count,
                Worse(x.worst, y.worst))
  }

  lemma MergeAddRight(x: Bucket, y: Bucket, s: MetricSample)
    requires y.count == 0 ==> y == EMPTY
    requires x.count == 0 ==> x == EMPTY
    ensures Merge(x, Add(y, s)) == Add(Merge(x, y), s)
  {
  }

  lemma MergeAddLeft(x: Bucket, y: Bucket, s: MetricSample)
    requires x.count == 0 ==> x == EMPTY
    requires y.count == 0 ==> y == EMPTY
    ensures Merge(Add(x, s), y) == Add(Merge(x, y), s)
  {
  }

  lemma MergeEmpty(x: Bucket)
    requires x.count == 0 ==> x == EMPTY
    ensures Merge(x, EMPTY) == x
  {
  }

  /** Folding a concatenation merges the folds. */
  lemma {:induction false} FoldConcat(a: seq<MetricSample>, b: seq<MetricSample>)
    ensures Fold(a + b) == Merge(Fold(a), Fold(b))
  {
    hide Merge, Add;
    if b == [] {
      MergeEmpty(Fold(a));
      assert a + b == a;
    } else {
      var init, last := b[..|b| - 1], b[|b| - 1];
      FoldConcat(a, init);
      assert (a + b)[..|a + b| - 1] == a + init;
      MergeAddRight(Fold(a), Fold(init), last);
    }
  }

  lemma {:induction false} FoldBounds(samples: seq<MetricSample>)
    ensures forall i :: 0 <= i < |samples| ==>
              Fold(samples).minVal <= samples[i].value <= Fold(samples).maxVal
              && samples[i].quality.Rank() <= Fold(samples).worst.Rank()
  {
    if samples != [] {
      var init, last := samples[..|samples| - 1], samples[|samples| - 1];
      FoldBounds(init);
      var b, b' := Fold(init), Fold(samples);
      assert b' == Add(b, last);
      hide Fold;
      forall i | 0 <= i < |samples|
        ensures b'.minVal <= samples[i].value <= b'.maxVal && samples[i].quality.Rank() <= b'.worst.Rank()
      {
        if i < |init| {
          assert samples[i] == init[i];
        } else {
          assert samples[i] == last;
        }
      }
    }
  }

  function SumOf(samples: seq<MetricSample>): real {
    if samples == [] then 0.0 else samples[0].value + SumOf(samples[1..])
  }

  lemma {:induction false} SumOfLast(samples: seq<MetricSample>)
    requires samples != []
    ensures SumOf(samples) == SumOf(samples[..|samples| - 1]) + samples[|samples| - 1].value
  {
    if |samples| > 1 {
      SumOfLast(samples[1..]);
      assert samples[1..][..|samples| - 2] == samples[..|samples| - 1][1..];
    }
  }

  lemma {:induction false} FoldSum(samples: seq<MetricSample>)
    ensures Fold(samples).sum == SumOf(samples)
  {
    if samples != [] {
      FoldSum(samples[..|samples| - 1]);
      SumOfLast(samples);
    }
  }

  /** What the bucket over a list means, without mentioning the order in which samples arrived. */
  lemma {:induction false} FoldMeaning(samples: seq<MetricSample>)
    ensures Fold(samples).count == |samples| && Fold(samples).sum == SumOf(samples)
    ensures samples != [] ==>
              (exists i :: 0 <= i < |samples| && samples[i].value == Fold(samples).minVal)
              && (exists i :: 0 <= i < |samples| && samples[i].value == Fold(samples).maxVal)
    ensures forall i :: 0 <= i < |samples| ==>
              Fold(samples).minVal <= samples[i].value <= Fold(samples).maxVal
              && samples[i].quality.Rank() <= Fold(samples).worst.Rank()
    ensures Fold(samples).worst == Measured
            || exists i :: 0 <= i < |samples| && samples[i].quality == Fold(samples).worst
  {
    FoldBounds(samples);
    FoldSum(samples);
    hide SumOf;
    if samples != [] {
      hide Fold;
      FoldMeaning(samples[..|samples| - 1]);
      FoldWitness(samples);
    }
  }

  lemma FoldWitness(samples: seq<MetricSample>)
    requires samples != []
    requires var init := samples[..|samples| - 1];
             init != [] ==>
               (exists i :: 0 <= i < |init| && init[i].value == Fold(init).minVal)
               && (exists i :: 0 <= i < |init| && init[i].value == Fold(init).maxVal)
    requires var init := samples[..|samples| - 1];
             Fold(init).worst == Measured || exists i :: 0 <= i < |init| && init[i].quality == Fold(init).worst
    ensures exists i :: 0 <= i < |samples| && samples[i].value == Fold(samples).minVal
    ensures exists i :: 0 <= i < |samples| && samples[i].value == Fold(samples).maxVal
    ensures Fold(samples).worst == Measured
            || exists i :: 0 <= i < |samples| && samples[i].quality == Fold(samples).worst
  {
    var init, last := samples[..|samples| - 1], samples[|samples| - 1];
    assert samples[|samples| - 1] == last;
    if init != [] {
      var i :| 0 <= i < |init| && init[i].value == Fold(init).minVal;
      var j :| 0 <= j < |init| && init[j].value == Fold(init).maxVal;
      assert samples[i] == init[i] && samples[j] == init[j];
    }
    if Fold(init).worst != Measured {
      var i :| 0 <= i < |init| && init[i].quality == Fold(init).worst;
      assert samples[i] == init[i];
    }
  }

  ghost predicate HasQuality(samples: seq<MetricSample>, q: Quality) {
    exists i :: 0 <= i < |samples| && samples[i].quality == q
  }

  lemma HasQualityExtended(samples: seq<MetricSample>, s: MetricSample, q: Quality)
    ensures HasQuality(samples + [s], q) <==> HasQuality(samples, q) || s.quality == q
  {
    var all := samples + [s];
    assert all[|samples|] == s && forall i :: 0 <= i < |samples| ==> all[i] == samples[i];
  }

  /** Unknown is worse than Estimated, Estimated than Derived, and Derived than Measured. */
  lemma {:induction false} WorstQuality(samples: seq<MetricSample>)
    ensures Fold(samples).worst
            == if HasQuality(samples, Unknown) then Unknown
               else if HasQuality(samples, Estimated) then Estimated
               else if HasQuality(samples, Derived) then Derived
               else Measured
  {
    if samples != [] {
      var init, s := samples[..|samples| - 1], samples[|samples| - 1];
      WorstQuality(init);
      assert init + [s] == samples;
      hide HasQuality;
      HasQualityExtended(init, s, Unknown);
      HasQualityExtended(init, s, Estimated);
      HasQualityExtended(init, s, Derived);
    }
  }

  // Selecting samples.

  function OfKey(samples: seq<MetricSample>, key: string): seq<MetricSample> {
    if samples == [] then []
    else
      var last := samples[|samples| - 1];
      OfKey(samples[..|samples| - 1], key) + (if last.key == key then [last] else [])
  }

  /** The samples of one key in one minute. */
  function Group(samples: seq<MetricSample>, minute: int, key: string): seq<MetricSample> {
    if samples == [] then []
    else
      var last := samples[|samples| - 1];
      Group(samples[..|samples| - 1], minute, key)
      + (if last.key == key && Bucket1m(last.ts) == minute then [last] else [])
  }

  lemma {:induction false} OfKeyConcat(a: seq<MetricSample>, b: seq<MetricSample>, key: string)
    ensures OfKey(a + b, key) == OfKey(a, key) + OfKey(b, key)
  {
    if b == [] {
      assert a + b == a;
    } else {
      OfKeyConcat(a, b[..|b| - 1], key);
      assert (a + b)[..|a + b| - 1] == a + b[..|b| - 1];
    }
  }

  lemma {:induction false} GroupConcat(a: seq<MetricSample>, b: seq<MetricSample>, minute: int, key: string)
    ensures Group(a + b, minute, key) == Group(a, minute, key) + Group(b, minute, key)
  {
    hide Bucket1m;
    if b == [] {
      assert a + b == a;
    } else {
      GroupConcat(a, b[..|b| - 1], minute, key);
      assert (a + b)[..|a + b| - 1] == a + b[..|b| - 1];
    }
  }

  lemma {:induction false} OfKeyMembers(samples: seq<MetricSample>, key: string)
    ensures OfKey(samples, key) != [] <==> exists i :: 0 <= i < |samples| && samples[i].key == key
  {
    if samples == [] {
    } else {
      var init := samples[..|samples| - 1];
      OfKeyMembers(init, key);
      assert forall i :: 0 <= i < |init| ==> samples[i] == init[i];
      if i :| 0 <= i < |init| && init[i].key == key {
        assert samples[i].key == key;
      }
      if i :| 0 <= i < |samples| && samples[i].key == key {
        assert i < |init| ==> init[i].key == key;
      }
    }
  }

  /** When all samples of a key lie in one minute, or none do, the group is all of them or empty. */
  lemma GroupOfUniform(samples: seq<MetricSample>, minute: int, key: string)
    ensures (forall i :: 0 <= i < |samples| && samples[i].key == key ==> Bucket1m(samples[i].ts) == minute)
            ==> Group(samples, minute, key) == OfKey(samples, key)
    ensures (forall i :: 0 <= i < |samples| && samples[i].key == key ==> Bucket1m(samples[i].ts) != minute)
            <==> Group(samples, minute, key) == []
  {
    hide Bucket1m, Group, OfKey;
    if forall i :: 0 <= i < |samples| && samples[i].key == key ==> Bucket1m(samples[i].ts) == minute {
      GroupIsAll(samples, minute, key);
    }
    GroupIsNone(samples, minute, key);
  }

  lemma {:induction false} GroupIsAll(samples: seq<MetricSample>, minute: int, key: string)
    requires forall i :: 0 <= i < |samples| && samples[i].key == key ==> Bucket1m(samples[i].ts) == minute
    ensures Group(samples, minute, key) == OfKey(samples, key)
  {
    hide Bucket1m;
    if samples != [] {
      var init := samples[..|samples| - 1];
      assert forall i :: 0 <= i < |init| ==> samples[i] == init[i];
      GroupIsAll(init, minute, key);
    }
  }

  lemma {:induction false} GroupIsNone(samples: seq<MetricSample>, minute: int, key: string)
    ensures (forall i :: 0 <= i < |samples| && samples[i].key == key ==> Bucket1m(samples[i].ts) != minute)
            <==> Group(samples, minute, key) == []
  {
    hide Bucket1m;
    if samples != [] {
      var init := samples[..|samples| - 1];
      GroupIsNone(init, minute, key);
      assert forall i :: 0 <= i < |init| ==> samples[i] == init[i];
    }
  }

  // The one-minute table.

  /** A row of metric_1m or metric_15m; the quality is stored as text. */
  datatype StoredRow = StoredRow(minValue: real, maxValue: real, avgValue: real, sampleCount: int, quality: string)

  type Table = map<(int, string), StoredRow>

  function Store(a: MetricAggregate): StoredRow {
    StoredRow(a.minValue, a.maxValue, a.avgValue, a.sampleCount, QualityToString(a.quality))
  }

  function Load(key: string, ts: int, r: StoredRow): MetricAggregate {
    MetricAggregate(key, ts, r.minValue, r.maxValue, r.avgValue, r.sampleCount, QualityFromString(r.quality))
  }

  /** The row that a bucket over the given samples is stored as. */
  function RowOf(samples: seq<MetricSample>): StoredRow {
    Store(ToAggregate(Fold(samples), "", 0))
  }

  /** The columns of a stored row in terms of the samples behind it. */
  lemma RowMeaning(samples: seq<MetricSample>)
    requires samples != []
    ensures var row := RowOf(samples);
            && (forall i :: 0 <= i < |samples| ==> row.minValue <= samples[i].value <= row.maxValue)
            && (exists i :: 0 <= i < |samples| && samples[i].value == row.minValue)
            && (exists i :: 0 <= i < |samples| && samples[i].value == row.maxValue)
            && row.sampleCount == |samples| && row.avgValue == SumOf(samples) / (|samples| as real)
            && row.quality == (if HasQuality(samples, Unknown) then "unknown"
                               else if HasQuality(samples, Estimated) then "estimated"
                               else if HasQuality(samples, Derived) then "derived"
                               else "measured")
  {
    FoldMeaning(samples);
    WorstQuality(samples);
    hide Fold, SumOf, HasQuality;
  }

  /** INSERT OR REPLACE. */
  function Upsert(t: Table, a: MetricAggregate): Table {
    t[(a.bucketTs, a.key) := Store(a)]
  }

  function UpsertAll(t: Table, aggregates: seq<MetricAggregate>): Table {
    if aggregates == [] then t
    else Upsert(UpsertAll(t, aggregates[..|aggregates| - 1]), aggregates[|aggregates| - 1])
  }

  /** An aggregate read back from its stored row is the aggregate that was stored. */
  lemma StoreLoad(a: MetricAggregate)
    ensures Load(a.key, a.bucketTs, Store(a)) == a
  {
    QualityRoundTrip(a.quality);
  }
}
