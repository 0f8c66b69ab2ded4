/** The tables that src/storage/writer.cpp fills and src/storage/reader.cpp queries. */
module StorageTables {
  import opened Types
  import opened RollupSpec
  import opened HistorySpec
  import opened DailyEnergy

  const HISTORY_LIMIT := 10000

  /** A limit keeps the first rows, a negative one all of them; the source's limit is 10000. */
  lemma LimitedIsPrefix(rows: seq<MetricAggregate>, limit: int)
    ensures Limited(rows, limit) <= rows
    ensures |Limited(rows, limit)| == if 0 <= limit < |rows| then limit else |rows|
    ensures |Limited(rows, HISTORY_LIMIT)| == if |rows| < 10000 then |rows| else 10000
  {
  }

  /** The stored rows that the SELECT statement of query_history yields, in its order. */
  function Select(t: Table, key: string, start: int, end: int): seq<(int, StoredRow)>
    decreases end - start + 1
  {
    if end < start then []
    else Select(t, key, start, end - 1) + (if (end, key) in t then [(end, t[(end, key)])] else [])
  }

  lemma {:induction false} SelectIsScan(t: Table, key: string, start: int, end: int)
    ensures var rows, data := Select(t, key, start, end), Scan(t, key, start, end);
            |rows| == |data| && forall i :: 0 <= i < |rows| ==> data[i] == Load(key, rows[i].0, rows[i].1)
    decreases end - start + 1
  {
    hide Load;
    if end >= start {
      SelectIsScan(t, key, start, end - 1);
    }
  }

  class Storage {
    var metric1m: Table
    var metric15m: Table
    var energyDaily: map<string, DayRow>

    constructor ()
      ensures metric1m == map[] && metric15m == map[] && energyDaily == map[]
    {
      metric1m, metric15m, energyDaily := map[], map[], map[];
    }

    method Write1m(aggregates: seq<MetricAggregate>)
      modifies this`metric1m
      ensures metric1m == UpsertAll(old(metric1m), aggregates)
    {
      for i := 0 to |aggregates|
        invariant metric1m == UpsertAll(old(metric1m), aggregates[..i])
      {
        var a := aggregates[i];
        metric1m := metric1m[(a.bucketTs, a.key) :=
          StoredRow(a.minValue, a.maxValue, a.avgValue, a.sampleCount, QualityToString(a.quality))];
        assert aggregates[..i + 1][..i] == aggregates[..i];
      }
      assert aggregates[..|aggregates|] == aggregates;
    }

    method Write15m(aggregates: seq<MetricAggregate>)
      modifies this`metric15m
      ensures metric15m == UpsertAll(old(metric15m), aggregates)
    {
      for i := 0 to |aggregates|
        invariant metric15m == UpsertAll(old(metric15m), aggregates[..i])
      {
        var a := aggregates[i];
        metric15m := metric15m[(a.bucketTs, a.key) :=
          StoredRow(a.minValue, a.maxValue, a.avgValue, a.sampleCount, QualityToString(a.quality))];
        assert aggregates[..i + 1][..i] == aggregates[..i];
      }
      assert aggregates[..|aggregates|] == aggregates;
    }

    method WriteEnergyDaily(day: string, energyWh: real, avgPowerW: real, peakPowerW: real, chargeWh: real,
                            dischargeWh: real, activeSeconds: int, quality: Quality, finalized: bool)
      modifies this`energyDaily
      ensures energyDaily == old(energyDaily)[day := DayRow(energyWh, avgPowerW, peakPowerW, chargeWh, dischargeWh,
                                                            activeSeconds, QualityToString(quality), finalized)]
    {
      energyDaily := energyDaily[day := DayRow(energyWh, avgPowerW, peakPowerW, chargeWh, dischargeWh,
                                               activeSeconds, QualityToString(quality), finalized)];
    }

    /** Only the two history tables can be queried; any other name gives no rows. */
    method QueryHistory(table: string, key: string, start: int, end: int, limit: int)
      returns (results: seq<MetricAggregate>)
      ensures results ==
              if table == "metric_1m" then Limited(Scan(metric1m, key, start, end), limit)
              else if table == "metric_15m" then Limited(Scan(metric15m, key, start, end), limit)
              else []
    {
      hide Select, Scan;
      if table != "metric_1m" && table != "metric_15m" {
        return [];
      }
      var source := if table == "metric_1m" then metric1m else metric15m;
      var rows := Select(source, key, start, end);
      SelectIsScan(source, key, start, end);
      ghost var data := Scan(source, key, start, end);
      results := [];
      var i := 0;
      while i < |rows| && (limit < 0 || i < limit)
        invariant 0 <= i <= |rows| && (0 <= limit ==> i <= limit)
        invariant results == data[..i]
      {
        var (ts, row) := rows[i];
        var agg := MetricAggregate(key, ts, row.minValue, row.maxValue, row.avgValue, row.sampleCount,
                                   QualityFromString(row.quality));
        results := results + [agg];
        i := i + 1;
      }
    }
  }
}
