/** The daily energy row that finalize_daily computes from the one-minute rows of one power key. */
module DailyEnergy {
  import opened Averages
  import opened Types
  import opened RollupSpec
  import opened HistorySpec

  /** A row of energy_daily without its update time. */
  datatype DayRow = DayRow(
    energyWh: real, avgPowerW: real, peakPowerW: real, chargeWh: real, dischargeWh: real,
    activeSeconds: int, quality: string, finalized: bool)

  /** One minute of energy for every row. */
  function WattHours(data: seq<MetricAggregate>): real {
    if data == [] then 0.0 else WattHours(data[..|data| - 1]) + data[|data| - 1].avgValue * (60.0 / 3600.0)
  }

  /** The largest maximum, and at least 0. */
  function PeakOf(data: seq<MetricAggregate>): real {
    if data == [] then 0.0 else Max(PeakOf(data[..|data| - 1]), data[|data| - 1].maxValue)
  }

  function Day(data: seq<MetricAggregate>): DayRow {
    DayRow(WattHours(data), Average(WeightedSum(data), 60 * |data|), PeakOf(data), 0.0, 0.0, 60 * |data|,
           QualityToString(WorstOf(data)), true)
  }

  /** Rows of at most one sample a second whose power is never negative. */
  ghost predicate Plausible(d: MetricAggregate) {
    0.0 <= d.avgValue <= d.maxValue && 0 <= d.sampleCount <= 60
  }

  ghost predicate AllPlausible(data: seq<MetricAggregate>) {
    forall i :: 0 <= i < |data| ==> Plausible(data[i])
  }

  /** Sixty samples, or no power at all. */
  predicate Full(d: MetricAggregate) {
    d.avgValue == 0.0 || d.sampleCount == 60
  }

  ghost predicate AllFull(data: seq<MetricAggregate>) {
    forall i :: 0 <= i < |data| ==> Full(data[i])
  }

  // Products are kept behind a name, and everything is scaled so that no division is left.

  function Times(x: real, n: int): real {
    x * (n as real)
  }

  lemma TimesMonotone(x: real, y: real, n: int)
    requires x <= y && n >= 0
    ensures Times(x, n) <= Times(y, n)
  {
    var m := n as real;
    assert (y - x) * m >= 0.0;
    assert (y - x) * m == y * m - x * m;
  }

  lemma TimesStrict(x: real, y: real, n: int)
    requires x < y && n > 0
    ensures Times(x, n) < Times(y, n)
  {
    var m := n as real;
    assert (y - x) * m > 0.0;
    assert (y - x) * m == y * m - x * m;
  }

  lemma TimesReflects(x: real, y: real, n: int)
    requires Times(x, n) <= Times(y, n) && n > 0
    ensures x <= y
  {
    hide Times;
    if y < x {
      TimesStrict(y, x, n);
    }
  }

  lemma TimesSum(x: real, m: int, n: int)
    ensures Times(x, m + n) == Times(x, m) + Times(x, n)
  {
    assert (m + n) as real == m as real + n as real;
    assert x * (m as real + n as real) == x * (m as real) + x * (n as real);
  }

  lemma TimesOne(x: real)
    ensures Times(x, 1) == x && Times(x, 0) == 0.0 && Times(0.0, 1) == 0.0
  {
  }

  lemma TimesSixty(x: real, n: int)
    ensures Times(x, 60 * n) == 60.0 * Times(x, n) && Times(x, 60) == 60.0 * x && Times(x, 3600) == 3600.0 * x
  {
    assert (60 * n) as real == 60.0 * (n as real);
    assert x * (60.0 * (n as real)) == 60.0 * (x * (n as real));
  }

  lemma AverageTimes(sum: real, n: int)
    requires n > 0
    ensures Times(Average(sum, n), n) == sum
  {
  }

  lemma RowBounds(d: MetricAggregate)
    requires Plausible(d)
    ensures 0.0 <= Weight(d) <= 60.0 * d.avgValue && (Weight(d) == 60.0 * d.avgValue <==> Full(d))
  {
    var x, m := d.avgValue, d.sampleCount as real;
    assert x * (60.0 - m) == 60.0 * x - x * m;
    assert x * m >= 0.0 && x * (60.0 - m) >= 0.0;
    if !Full(d) {
      assert x > 0.0 && 60.0 - m > 0.0;
      assert x * (60.0 - m) > 0.0;
    }
  }

  /** One more row. */
  lemma SumsExtended(data: seq<MetricAggregate>, d: MetricAggregate)
    ensures WeightedSum(data + [d]) == WeightedSum(data) + Weight(d)
    ensures 60.0 * WattHours(data + [d]) == 60.0 * WattHours(data) + d.avgValue
    ensures PeakOf(data + [d]) == Max(PeakOf(data), d.maxValue)
    ensures AllPlausible(data + [d]) <==> AllPlausible(data) && Plausible(d)
    ensures AllFull(data + [d]) <==> AllFull(data) && Full(d)
  {
    hide Weight, Plausible, Full;
    var all := data + [d];
    assert all[..|data|] == data && all[|data|] == d;
    assert forall i :: 0 <= i < |data| ==> all[i] == data[i];
  }

  lemma {:induction false} DaySums(data: seq<MetricAggregate>)
    requires AllPlausible(data)
    ensures 0.0 <= WeightedSum(data) <= 3600.0 * WattHours(data)
    ensures WeightedSum(data) == 3600.0 * WattHours(data) <==> AllFull(data)
    ensures 60.0 * WattHours(data) <= Times(PeakOf(data), |data|) && 0.0 <= PeakOf(data)
  {
    if data == [] {
      NothingSums();
    } else {
      hide WeightedSum, WattHours, PeakOf, AllPlausible, AllFull, Weight, Full, Times;
      var init, last := data[..|data| - 1], data[|data| - 1];
      assert init + [last] == data;
      SumsExtended(init, last);
      DaySums(init);
      RowBounds(last);
      PeakStep(PeakOf(init), last.maxValue, |init|);
    }
  }

  lemma PeakStep(peak: real, max: real, n: nat)
    ensures Times(peak, n) + max <= Times(Max(peak, max), n + 1)
  {
    hide Times;
    var p := Max(peak, max);
    TimesMonotone(peak, p, n);
    TimesSum(p, n, 1);
    TimesOne(p);
  }

  lemma NothingSums()
    ensures WeightedSum([]) == 0.0 && WattHours([]) == 0.0 && PeakOf([]) == 0.0 && Times(PeakOf([]), 0) == 0.0
  {
  }

  /**
   The daily bounds: the mean never exceeds the peak, the energy never exceeds the peak over the
   active time, and the mean over the active time never exceeds the energy; it equals the energy
   exactly when every row with power holds a full minute of samples.
   */
  lemma DailyBounds(data: seq<MetricAggregate>)
    requires AllPlausible(data)
    ensures var day := Day(data);
            && day.avgPowerW <= day.peakPowerW
            && 3600.0 * day.energyWh <= Times(day.peakPowerW, day.activeSeconds)
            && Times(day.avgPowerW, day.activeSeconds) <= 3600.0 * day.energyWh
            && (Times(day.avgPowerW, day.activeSeconds) == 3600.0 * day.energyWh <==> AllFull(data))
            && day.activeSeconds == 60 * |data| && day.chargeWh == day.dischargeWh == 0.0 && day.finalized
  {
    hide AllPlausible, AllFull, WeightedSum, WattHours, PeakOf, Times;
    DaySums(data);
    var n := 60 * |data|;
    TimesSixty(PeakOf(data), |data|);
    if data == [] {
      NothingSums();
      TimesOne(0.0);
    } else {
      hide Average;
      AverageTimes(WeightedSum(data), n);
      TimesReflects(Average(WeightedSum(data), n), PeakOf(data), n);
    }
  }

  // From the samples to the day.

  lemma {:induction false} FoldBetween(samples: seq<MetricSample>)
    requires samples != []
    ensures var b := Fold(samples);
            Times(b.minVal, b.count) <= b.sum <= Times(b.maxVal, b.count) && b.minVal <= b.maxVal
  {
    hide Times;
    var init, s := samples[..|samples| - 1], samples[|samples| - 1];
    TimesOne(s.value);
    if init != [] {
      FoldBetween(init);
      var b, b' := Fold(init), Fold(samples);
      hide Fold;
      assert b'.count == b.count + 1;
      TimesMonotone(b'.minVal, b.minVal, b.count);
      TimesMonotone(b.maxVal, b'.maxVal, b.count);
      TimesSum(b'.minVal, b.count, 1);
      TimesSum(b'.maxVal, b.count, 1);
      TimesOne(b'.minVal);
      TimesOne(b'.maxVal);
    }
  }

  /** The stored average lies between the stored extremes. */
  lemma AverageBetweenExtremes(samples: seq<MetricSample>, key: string, ts: int)
    requires samples != []
    ensures var d := Load(key, ts, RowOf(samples)); d.minValue <= d.avgValue <= d.maxValue
  {
    FoldBetween(samples);
    hide Fold, Times, Average;
    var b := Fold(samples);
    AverageTimes(b.sum, b.count);
    TimesReflects(b.minVal, Average(b.sum, b.count), b.count);
    TimesReflects(Average(b.sum, b.count), b.maxVal, b.count);
  }

  /** No row that the query selects holds a negative value or more than a minute of samples. */
  ghost predicate PowerSamples(origin: Origin, key: string, start: int, end: int) {
    forall ts :: start <= ts <= end && (ts, key) in origin ==> PowerMinute(origin[(ts, key)])
  }

  ghost predicate PowerMinute(samples: seq<MetricSample>) {
    |samples| <= 60 && forall i :: 0 <= i < |samples| ==> samples[i].value >= 0.0
  }

  /** Every selected row has sixty samples, or no power at all. */
  ghost predicate FullMinutes(origin: Origin, key: string, start: int, end: int) {
    forall ts :: start <= ts <= end && (ts, key) in origin ==> FullMinute(origin[(ts, key)])
  }

  predicate FullMinute(samples: seq<MetricSample>) {
    |samples| == 60 || SumOf(samples) == 0.0
  }

  lemma {:induction false} FoldNonNegative(samples: seq<MetricSample>)
    requires forall i :: 0 <= i < |samples| ==> samples[i].value >= 0.0
    ensures Fold(samples).minVal >= 0.0
  {
    if samples != [] {
      FoldNonNegative(samples[..|samples| - 1]);
      assert samples[|samples| - 1].value >= 0.0;
    }
  }

  lemma PowerRow(samples: seq<MetricSample>, key: string, ts: int)
    requires samples != [] && PowerMinute(samples)
    ensures var d := Load(key, ts, RowOf(samples)); Plausible(d) && (Full(d) <==> FullMinute(samples))
  {
    AverageBetweenExtremes(samples, key, ts);
    FoldNonNegative(samples);
    FoldSum(samples);
    RowContribution(samples, key, ts);
    ZeroWeight(Load(key, ts, RowOf(samples)));
    hide Load, RowOf, Fold, SumOf, Weight;
  }

  lemma ZeroWeight(d: MetricAggregate)
    requires d.sampleCount > 0
    ensures Weight(d) == 0.0 <==> d.avgValue == 0.0
  {
    var x, m := d.avgValue, d.sampleCount as real;
    assert m > 0.0;
    if x > 0.0 {
      assert x * m > 0.0;
    } else if x < 0.0 {
      assert (-x) * m > 0.0;
    }
  }

  lemma {:induction false} PowerRows(t: Table, origin: Origin, key: string, start: int, end: int)
    requires Backed(t, origin) && PowerSamples(origin, key, start, end)
    ensures AllPlausible(Scan(t, key, start, end))
    ensures AllFull(Scan(t, key, start, end)) <==> FullMinutes(origin, key, start, end)
    decreases end - start + 1
  {
    hide RowOf, Load, Plausible, Full, FullMinute, PowerMinute;
    if end >= start {
      PowerRows(t, origin, key, start, end - 1);
      var init := Scan(t, key, start, end - 1);
      assert FullMinutes(origin, key, start, end)
             <==> FullMinutes(origin, key, start, end - 1) && ((end, key) in origin ==> FullMinute(origin[(end, key)]));
      if (end, key) in t {
        var samples := origin[(end, key)];
        var d := Load(key, end, RowOf(samples));
        PowerRow(samples, key, end);
        SumsExtended(init, d);
        assert Scan(t, key, start, end) == init + [d];
      } else {
        assert Scan(t, key, start, end) == init;
      }
    }
  }

  lemma {:induction false} PeakIsMax(data: seq<MetricAggregate>)
    ensures PeakOf(data) == if data == [] then 0.0 else Max(0.0, MaxOf(data))
  {
    if data != [] {
      PeakIsMax(data[..|data| - 1]);
    }
  }

  /** A daily row over the samples of the bucket `b`, each standing for one second. */
  ghost predicate DayMeans(day: DayRow, b: Bucket) {
    && Times(day.avgPowerW, day.activeSeconds) == b.sum
    && day.peakPowerW == Max(0.0, b.maxVal)
    && day.quality == QualityToString(b.worst)
  }

  /** The energy is at least the sum of the samples, and equal to it exactly if all minutes are full. */
  ghost predicate EnergyMeans(day: DayRow, b: Bucket, full: bool) {
    b.sum <= 3600.0 * day.energyWh && (b.sum == 3600.0 * day.energyWh <==> full)
  }

  /**
   The day in terms of the raw power samples behind the selected rows, taking each as one second:
   the mean times the active time is their sum, the peak is their maximum, the quality is their
   worst. If no minute has more than sixty samples and none is negative, the energy is at least their
   sum, with equality exactly when every minute with power is full.
   */
  lemma DayFromSamples(t: Table, origin: Origin, key: string, start: int, end: int)
    requires Backed(t, origin)
    ensures var day, b := Day(Scan(t, key, start, end)), Fold(Behind(origin, key, start, end));
            && DayMeans(day, b)
            && (PowerSamples(origin, key, start, end) ==> EnergyMeans(day, b, FullMinutes(origin, key, start, end)))
  {
    hide AllPlausible, AllFull, Fold, Backed, PowerSamples, FullMinutes, WattHours, Times, Scan, Behind,
      WeightedSum, Average, QualityToString, PeakOf, MaxOf, MinOf, TotalSamples, WorstOf;
    var data := Scan(t, key, start, end);
    RollupValues(t, origin, key, start, end);
    PeakIsMax(data);
    if data == [] {
      TimesOne(Average(WeightedSum(data), 0));
    } else {
      AverageTimes(WeightedSum(data), 60 * |data|);
    }
    if PowerSamples(origin, key, start, end) {
      PowerRows(t, origin, key, start, end);
      DailyBounds(data);
    }
  }

  lemma {:induction false} WattHoursConcat(a: seq<MetricAggregate>, b: seq<MetricAggregate>)
    ensures WattHours(a + b) == WattHours(a) + WattHours(b)
  {
    if b == [] {
      assert a + b == a;
    } else {
      WattHoursConcat(a, b[..|b| - 1]);
      assert (a + b)[..|a + b| - 1] == a + b[..|b| - 1];
    }
  }

  /** Two consecutive days both count the energy of the minute at midnight. */
  lemma MidnightCountedTwice(t: Table, key: string, start: int, midnight: int, end: int)
    requires start <= midnight <= end
    ensures WattHours(Scan(t, key, start, midnight)) + WattHours(Scan(t, key, midnight, end))
            == WattHours(Scan(t, key, start, end)) + WattHours(RowAt(t, key, midnight))
  {
    hide WattHours;
    ScanSplit(t, key, start, midnight, end);
    WattHoursConcat(Scan(t, key, start, midnight - 1), RowAt(t, key, midnight));
    WattHoursConcat(Scan(t, key, start, midnight - 1), Scan(t, key, midnight, end));
  }
}
