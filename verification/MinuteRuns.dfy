/**
 Whole runs of accumulate and flush_1m: which samples end up in which stored row, and when the
 one-minute table is the group-by of all samples on (minute, key).
 */
module MinuteRuns {
  import opened Types
  import opened RollupSpec

  datatype Op = Accumulate(sample: MetricSample) | Flush

  /** The samples of one flush and the bucket timestamp they were stored under. */
  datatype Batch = Batch(bucketTs: int, samples: seq<MetricSample>)

  function KeysOf(samples: seq<MetricSample>): set<string> {
    set i | 0 <= i < |samples| :: samples[i].key
  }

  /** The rows that one flush writes. */
  function Rows(b: Batch): Table {
    map p | p in BatchKeys(b) :: RowOf(OfKey(b.samples, p.1))
  }

  function BatchKeys(b: Batch): set<(int, string)> {
    set k | k in KeysOf(b.samples) :: (b.bucketTs, k)
  }

  /** The aggregator: the current bucket, the samples in its working buckets, and the stored table. */
  datatype State = State(current: int, pending: seq<MetricSample>, table: Table)

  /** A new aggregator over a table that may hold rows already. */
  function Initial(stored: Table): State {
    State(0, [], stored)
  }

  function FlushStep(st: State): State {
    State(st.current, [], st.table + Rows(Batch(st.current, st.pending)))
  }

  /** 0 stands for "no bucket yet", so leaving bucket 0 does not flush. */
  function AccumulateStep(st: State, s: MetricSample): State {
    var bts := Bucket1m(s.ts);
    var st' := if st.current != 0 && bts != st.current then FlushStep(st) else st;
    State(bts, st'.pending + [s], st'.table)
  }

  function Step(st: State, op: Op): State {
    match op
    case Accumulate(s) => AccumulateStep(st, s)
    case Flush => FlushStep(st)
  }

  function Run(stored: Table, ops: seq<Op>): State {
    if ops == [] then Initial(stored) else Step(Run(stored, ops[..|ops| - 1]), ops[|ops| - 1])
  }

  function SamplesOf(ops: seq<Op>): seq<MetricSample> {
    if ops == [] then []
    else
      var last := ops[|ops| - 1];
      SamplesOf(ops[..|ops| - 1]) + (if last.Accumulate? then [last.sample] else [])
  }

  // The same run as a list of batches.

  datatype Trace = Trace(current: int, pending: seq<MetricSample>, batches: seq<Batch>)

  function TraceFlush(t: Trace): Trace {
    if t.pending == [] then t else Trace(t.current, [], t.batches + [Batch(t.current, t.pending)])
  }

  function TraceStep(t: Trace, op: Op): Trace {
    match op
    case Flush => TraceFlush(t)
    case Accumulate(s) =>
      var bts := Bucket1m(s.ts);
      var t' := if t.current != 0 && bts != t.current then TraceFlush(t) else t;
      Trace(bts, t'.pending + [s], t'.batches)
  }

  function RunTrace(ops: seq<Op>): Trace {
    if ops == [] then Trace(0, [], []) else TraceStep(RunTrace(ops[..|ops| - 1]), ops[|ops| - 1])
  }

  function TableOf(bs: seq<Batch>): Table {
    if bs == [] then map[] else TableOf(bs[..|bs| - 1]) + Rows(bs[|bs| - 1])
  }

  function AllSamples(bs: seq<Batch>): seq<MetricSample> {
    if bs == [] then [] else AllSamples(bs[..|bs| - 1]) + bs[|bs| - 1].samples
  }

  lemma TableFlush(t: Trace)
    ensures TableOf(TraceFlush(t).batches) == TableOf(t.batches) + Rows(Batch(t.current, t.pending))
    ensures AllSamples(TraceFlush(t).batches) == AllSamples(t.batches) + t.pending
  {
    if t.pending != [] {
      var bs := t.batches + [Batch(t.current, t.pending)];
      assert bs[..|bs| - 1] == t.batches;
    }
  }

  /**
   Conservation over arbitrary runs: the flushed batches and the pending samples are, in order,
   exactly the samples accumulated; and the table is the batches written one over the other, on top
   of the rows that were stored before.
   */
  lemma {:induction false} RunIsTrace(stored: Table, ops: seq<Op>)
    ensures var t := RunTrace(ops);
            && Run(stored, ops) == State(t.current, t.pending, stored + TableOf(t.batches))
            && AllSamples(t.batches) + t.pending == SamplesOf(ops)
  {
    if ops == [] {
    } else {
      var init, last := ops[..|ops| - 1], ops[|ops| - 1];
      RunIsTrace(stored, init);
      StepIsTrace(stored, RunTrace(init), last);
      hide Step, TraceStep, TableOf, AllSamples;
      var all, one := SamplesOf(init), if last.Accumulate? then [last.sample] else [];
      assert SamplesOf(ops) == all + one;
    }
  }

  lemma StepIsTrace(stored: Table, t: Trace, op: Op)
    ensures var t' := TraceStep(t, op);
            && Step(State(t.current, t.pending, stored + TableOf(t.batches)), op)
               == State(t'.current, t'.pending, stored + TableOf(t'.batches))
            && AllSamples(t'.batches) + t'.pending
               == AllSamples(t.batches) + t.pending + (if op.Accumulate? then [op.sample] else [])
  {
    hide Rows, Bucket1m, TableOf, AllSamples;
    TableFlush(t);
    Layers(stored, TableOf(t.batches), Rows(Batch(t.current, t.pending)));
    if op.Accumulate? {
      var t' := TraceStep(t, op);
      assert AllSamples(t'.batches) + t'.pending == AllSamples(t.batches) + t.pending + [op.sample];
    }
  }

  lemma Layers(x: Table, y: Table, z: Table)
    ensures (x + y) + z == x + (y + z)
  {
  }

  /** Per key: the sample counts of all rows ever written plus the pending samples. */
  function WrittenCount(bs: seq<Batch>, key: string): nat {
    if bs == [] then 0 else WrittenCount(bs[..|bs| - 1], key) + |OfKey(bs[|bs| - 1].samples, key)|
  }

  lemma CountsConserved(ops: seq<Op>, key: string)
    ensures var t := RunTrace(ops);
            WrittenCount(t.batches, key) + |OfKey(t.pending, key)| == |OfKey(SamplesOf(ops), key)|
  {
    var t := RunTrace(ops);
    RunIsTrace(map[], ops);
    OfKeyConcat(AllSamples(t.batches), t.pending, key);
    WrittenCountIs(t.batches, key);
  }

  lemma {:induction false} WrittenCountIs(bs: seq<Batch>, key: string)
    ensures WrittenCount(bs, key) == |OfKey(AllSamples(bs), key)|
  {
    if bs == [] {
    } else {
      WrittenCountIs(bs[..|bs| - 1], key);
      OfKeyConcat(AllSamples(bs[..|bs| - 1]), bs[|bs| - 1].samples, key);
    }
  }

  // Group-by.

  function GroupKeys(samples: seq<MetricSample>): set<(int, string)> {
    set i | 0 <= i < |samples| :: (Bucket1m(samples[i].ts), samples[i].key)
  }

  /** The reference: one row per (minute, key), over all samples of that minute and key. */
  function GroupBy(samples: seq<MetricSample>): Table {
    map p | p in GroupKeys(samples) :: RowOf(Group(samples, p.0, p.1))
  }

  lemma GroupKeysMember(samples: seq<MetricSample>, m: int, k: string)
    ensures (m, k) in GroupKeys(samples) <==> Group(samples, m, k) != []
  {
    hide Bucket1m;
    GroupOfUniform(samples, m, k);
    if Group(samples, m, k) != [] {
      var i :| 0 <= i < |samples| && samples[i].key == k && Bucket1m(samples[i].ts) == m;
      assert (Bucket1m(samples[i].ts), samples[i].key) == (m, k);
    }
  }

  predicate Matches(b: Batch, m: int, k: string) {
    b.bucketTs == m && k in KeysOf(b.samples)
  }

  /** The last batch that wrote the row (m, k); -1 if none did. */
  function LastBatch(bs: seq<Batch>, m: int, k: string): (l: int)
    ensures -1 <= l < |bs|
    ensures l >= 0 ==> Matches(bs[l], m, k)
    ensures forall j :: l < j < |bs| ==> !Matches(bs[j], m, k)
  {
    if bs == [] then -1
    else if Matches(bs[|bs| - 1], m, k) then |bs| - 1
    else LastBatch(bs[..|bs| - 1], m, k)
  }

  lemma RowsLookup(b: Batch, m: int, k: string)
    ensures (m, k) in Rows(b) <==> Matches(b, m, k)
    ensures Matches(b, m, k) ==> Rows(b)[(m, k)] == RowOf(OfKey(b.samples, k))
  {
  }

  lemma {:induction false} TableLookup(bs: seq<Batch>, m: int, k: string)
    ensures var l := LastBatch(bs, m, k);
            && ((m, k) in TableOf(bs) <==> l >= 0)
            && (l >= 0 ==> TableOf(bs)[(m, k)] == RowOf(OfKey(bs[l].samples, k)))
  {
    hide Rows, Matches, RowOf;
    if bs == [] {
    } else {
      TableLookup(bs[..|bs| - 1], m, k);
      RowsLookup(bs[|bs| - 1], m, k);
    }
  }

  lemma MatchesOfKey(b: Batch, k: string)
    ensures k in KeysOf(b.samples) <==> OfKey(b.samples, k) != []
  {
    OfKeyMembers(b.samples, k);
    if OfKey(b.samples, k) != [] {
      var i :| 0 <= i < |b.samples| && b.samples[i].key == k;
    }
  }

  lemma {:induction false} GroupAtLeast(bs: seq<Batch>, i: nat, m: int, k: string)
    requires i < |bs|
    ensures |Group(AllSamples(bs), m, k)| >= |Group(bs[i].samples, m, k)|
  {
    hide Group;
    GroupConcat(AllSamples(bs[..|bs| - 1]), bs[|bs| - 1].samples, m, k);
    if i < |bs| - 1 {
      GroupAtLeast(bs[..|bs| - 1], i, m, k);
    }
  }

  lemma {:induction false} GroupAtLeastTwo(bs: seq<Batch>, i: nat, j: nat, m: int, k: string)
    requires i < j < |bs|
    ensures |Group(AllSamples(bs), m, k)| >= |Group(bs[i].samples, m, k)| + |Group(bs[j].samples, m, k)|
  {
    hide Group;
    var init := bs[..|bs| - 1];
    GroupConcat(AllSamples(init), bs[|bs| - 1].samples, m, k);
    if j < |bs| - 1 {
      GroupAtLeastTwo(init, i, j, m, k);
    } else {
      GroupAtLeast(init, i, m, k);
    }
  }

  /** If only batch `l` holds samples of the group, the group of all samples is its group; -1 means none does. */
  lemma {:induction false} GroupOfOne(bs: seq<Batch>, l: int, m: int, k: string)
    requires -1 <= l < |bs|
    requires forall i :: 0 <= i < |bs| && i != l ==> Group(bs[i].samples, m, k) == []
    ensures Group(AllSamples(bs), m, k) == if l < 0 then [] else Group(bs[l].samples, m, k)
  {
    if bs == [] {
    } else {
      hide Group;
      var n := |bs| - 1;
      GroupConcat(AllSamples(bs[..n]), bs[n].samples, m, k);
      if l < n {
        GroupOfOne(bs[..n], l, m, k);
      } else {
        GroupOfOne(bs[..n], -1, m, k);
      }
    }
  }

  /** All samples of the batch lie in the minute it was stored under. */
  ghost predicate InMinute(b: Batch, minute: int) {
    forall i :: 0 <= i < |b.samples| ==> Bucket1m(b.samples[i].ts) == minute
  }

  /** Batches are never split over two flushes of one minute, and hold nothing but their minute. */
  ghost predicate Faithful(bs: seq<Batch>) {
    && (forall i :: 0 <= i < |bs| ==> InMinute(bs[i], bs[i].bucketTs))
    && (forall i, j, k :: 0 <= i < j < |bs| && k in KeysOf(bs[i].samples) && k in KeysOf(bs[j].samples) ==>
          bs[i].bucketTs != bs[j].bucketTs)
  }

  /** What every run guarantees: only samples of bucket 0 can be stored under another label. */
  ghost predicate Labelled(bs: seq<Batch>) {
    forall i, n :: 0 <= i < |bs| && 0 <= n < |bs[i].samples| ==>
      Bucket1m(bs[i].samples[n].ts) == bs[i].bucketTs || Bucket1m(bs[i].samples[n].ts) == 0
  }

  lemma GroupInMinute(b: Batch, m: int, k: string)
    requires InMinute(b, b.bucketTs)
    ensures Group(b.samples, m, k) == if b.bucketTs == m then OfKey(b.samples, k) else []
  {
    hide Bucket1m;
    GroupOfUniform(b.samples, m, k);
  }

  lemma FaithfulRow(bs: seq<Batch>, m: int, k: string)
    requires Faithful(bs)
    ensures var l := LastBatch(bs, m, k);
            Group(AllSamples(bs), m, k) == if l < 0 then [] else OfKey(bs[l].samples, k)
  {
    hide Bucket1m, Group, OfKey, KeysOf;
    var l := LastBatch(bs, m, k);
    forall i | 0 <= i < |bs| && i != l ensures Group(bs[i].samples, m, k) == [] {
      GroupInMinute(bs[i], m, k);
      MatchesOfKey(bs[i], k);
    }
    if l >= 0 {
      GroupInMinute(bs[l], m, k);
    }
    GroupOfOne(bs, l, m, k);
  }

  lemma FaithfulIsGroupBy(bs: seq<Batch>)
    requires Faithful(bs)
    ensures TableOf(bs) == GroupBy(AllSamples(bs))
  {
    hide Faithful, TableOf, Group, OfKey, RowOf, GroupKeys;
    var t, g := TableOf(bs), GroupBy(AllSamples(bs));
    forall m: int, k: string
      ensures (m, k) in t <==> (m, k) in g
      ensures (m, k) in t ==> t[(m, k)] == g[(m, k)]
    {
      TableLookup(bs, m, k);
      FaithfulRow(bs, m, k);
      GroupKeysMember(AllSamples(bs), m, k);
      var l := LastBatch(bs, m, k);
      if l >= 0 {
        MatchesOfKey(bs[l], k);
      }
    }
    assert forall p :: p in t <==> p in g by {
      forall p: (int, string) ensures p in t <==> p in g {
        assert p == (p.0, p.1);
      }
    }
  }

  lemma RowCount(samples: seq<MetricSample>)
    ensures RowOf(samples).sampleCount == |samples|
  {
  }

  /** Every group of samples is stored as the row over exactly these samples. */
  ghost predicate StoresGroups(t: Table, samples: seq<MetricSample>) {
    forall p :: p in GroupKeys(samples) ==> p in t && t[p] == GroupBy(samples)[p]
  }

  /** Then the last writer of a row must hold every sample of its group. */
  lemma StoredCount(bs: seq<Batch>, m: int, k: string)
    requires StoresGroups(TableOf(bs), AllSamples(bs)) && Group(AllSamples(bs), m, k) != []
    ensures var l := LastBatch(bs, m, k);
            l >= 0 && |OfKey(bs[l].samples, k)| == |Group(AllSamples(bs), m, k)|
  {
    hide TableOf, Group, OfKey, RowOf, GroupKeys;
    GroupKeysMember(AllSamples(bs), m, k);
    TableLookup(bs, m, k);
    var l := LastBatch(bs, m, k);
    RowCount(OfKey(bs[l].samples, k));
    RowCount(Group(AllSamples(bs), m, k));
  }

  /** A sample of bucket 0 stored under another minute is missing from every row of bucket 0. */
  lemma MislabelledIsMissing(bs: seq<Batch>, i: nat, n: nat)
    requires Labelled(bs) && i < |bs| && n < |bs[i].samples|
    requires Bucket1m(bs[i].samples[n].ts) != bs[i].bucketTs
    ensures var k := bs[i].samples[n].key;
            var l := LastBatch(bs, 0, k);
            Group(AllSamples(bs), 0, k) != []
            && (l >= 0 ==> |OfKey(bs[l].samples, k)| < |Group(AllSamples(bs), 0, k)|)
  {
    hide Bucket1m, Group, OfKey, KeysOf;
    var k := bs[i].samples[n].key;
    GroupOfUniform(bs[i].samples, 0, k);
    GroupAtLeast(bs, i, 0, k);
    var l := LastBatch(bs, 0, k);
    if l >= 0 {
      assert InMinute(bs[l], 0);
      GroupInMinute(bs[l], 0, k);
      if i < l {
        GroupAtLeastTwo(bs, i, l, 0, k);
      } else {
        GroupAtLeastTwo(bs, l, i, 0, k);
      }
    }
  }

  lemma GroupByNeedsMinutes(bs: seq<Batch>, i: nat)
    requires Labelled(bs) && StoresGroups(TableOf(bs), AllSamples(bs)) && i < |bs|
    ensures InMinute(bs[i], bs[i].bucketTs)
  {
    hide Bucket1m, Group, OfKey, TableOf, GroupBy, Labelled;
    forall n | 0 <= n < |bs[i].samples| ensures Bucket1m(bs[i].samples[n].ts) == bs[i].bucketTs {
      if Bucket1m(bs[i].samples[n].ts) != bs[i].bucketTs {
        MislabelledIsMissing(bs, i, n);
        StoredCount(bs, 0, bs[i].samples[n].key);
      }
    }
  }

  lemma GroupByNeedsOneFlush(bs: seq<Batch>, i: nat, j: nat, k: string)
    requires StoresGroups(TableOf(bs), AllSamples(bs)) && i < j < |bs|
    requires InMinute(bs[i], bs[i].bucketTs) && InMinute(bs[j], bs[j].bucketTs)
    requires forall x :: 0 <= x < |bs| ==> InMinute(bs[x], bs[x].bucketTs)
    requires k in KeysOf(bs[i].samples) && k in KeysOf(bs[j].samples)
    ensures bs[i].bucketTs != bs[j].bucketTs
  {
    hide Bucket1m, Group, OfKey, KeysOf, TableOf, GroupBy, InMinute;
    var m := bs[i].bucketTs;
    if bs[j].bucketTs == m {
      MatchesOfKey(bs[i], k);
      MatchesOfKey(bs[j], k);
      GroupInMinute(bs[i], m, k);
      GroupAtLeast(bs, i, m, k);
      StoredCount(bs, m, k);
      var l := LastBatch(bs, m, k);
      GroupInMinute(bs[l], m, k);
      assert l >= j by { assert Matches(bs[j], m, k); }
      GroupAtLeastTwo(bs, i, l, m, k);
    }
  }

  /**
   The written rows are the group-by of all flushed samples, or at least store all groups, exactly
   when no row is flushed in two parts and no sample of bucket 0 was stored under another minute.
   */
  lemma GroupByExactlyFaithful(bs: seq<Batch>)
    requires Labelled(bs)
    ensures TableOf(bs) == GroupBy(AllSamples(bs)) <==> Faithful(bs)
    ensures StoresGroups(TableOf(bs), AllSamples(bs)) <==> Faithful(bs)
  {
    if Faithful(bs) {
      FaithfulIsGroupBy(bs);
    } else if StoresGroups(TableOf(bs), AllSamples(bs)) {
      hide Bucket1m, KeysOf, TableOf, GroupBy, InMinute, Labelled, StoresGroups;
      forall i | 0 <= i < |bs| ensures InMinute(bs[i], bs[i].bucketTs) {
        GroupByNeedsMinutes(bs, i);
      }
      forall i, j, k | 0 <= i < j < |bs| && k in KeysOf(bs[i].samples) && k in KeysOf(bs[j].samples)
        ensures bs[i].bucketTs != bs[j].bucketTs
      {
        GroupByNeedsOneFlush(bs, i, j, k);
      }
    }
  }

  ghost predicate PendingLabelled(t: Trace) {
    forall n :: 0 <= n < |t.pending| ==> Bucket1m(t.pending[n].ts) == t.current || Bucket1m(t.pending[n].ts) == 0
  }

  lemma FlushLabelled(t: Trace)
    requires Labelled(t.batches) && PendingLabelled(t)
    ensures Labelled(TraceFlush(t).batches) && PendingLabelled(TraceFlush(t))
  {
    hide Bucket1m;
  }

  lemma {:induction false} RunLabelled(ops: seq<Op>)
    ensures Labelled(RunTrace(ops).batches) && PendingLabelled(RunTrace(ops))
  {
    hide Bucket1m, Labelled;
    if ops == [] {
      NothingLabelled();
    } else {
      RunLabelled(ops[..|ops| - 1]);
      FlushLabelled(RunTrace(ops[..|ops| - 1]));
    }
  }

  lemma NothingLabelled()
    ensures Labelled([])
  {
  }

  /** The batches of a run that ends with a flush. */
  function FinalBatches(ops: seq<Op>): seq<Batch> {
    TraceFlush(RunTrace(ops)).batches
  }

  function FinalTable(stored: Table, ops: seq<Op>): Table {
    FlushStep(Run(stored, ops)).table
  }

  /** The table after a final flush is the group-by exactly if the flushed batches are faithful. */
  lemma FinalTableIsGroupBy(stored: Table, ops: seq<Op>)
    ensures Faithful(FinalBatches(ops)) ==> FinalTable(stored, ops) == stored + GroupBy(SamplesOf(ops))
    ensures stored.Keys !! GroupKeys(SamplesOf(ops)) && FinalTable(stored, ops) == stored + GroupBy(SamplesOf(ops))
            ==> Faithful(FinalBatches(ops))
  {
    var t, bs, samples := RunTrace(ops), FinalBatches(ops), SamplesOf(ops);
    RunIsTrace(stored, ops);
    TableFlush(t);
    Layers(stored, TableOf(t.batches), Rows(Batch(t.current, t.pending)));
    RunLabelled(ops);
    FlushLabelled(t);
    GroupByExactlyFaithful(bs);
    hide Faithful, TableOf, GroupKeys, RowOf, Group, Run, RunTrace, SamplesOf, AllSamples, Rows;
    if stored.Keys !! GroupKeys(samples) && stored + TableOf(bs) == stored + GroupBy(samples) {
      OnlyNewRows(stored, TableOf(bs), samples);
    }
  }

  lemma OnlyNewRows(stored: Table, written: Table, samples: seq<MetricSample>)
    requires stored.Keys !! GroupKeys(samples) && stored + written == stored + GroupBy(samples)
    ensures StoresGroups(written, samples)
  {
    hide GroupKeys, RowOf, Group;
    forall p | p in GroupKeys(samples) ensures p in written && written[p] == GroupBy(samples)[p] {
      assert p in stored + GroupBy(samples) && (stored + written)[p] == (stored + GroupBy(samples))[p];
    }
  }

  // The same condition in terms of the calls.

  predicate IsSample(op: Op, m: int, k: string) {
    op.Accumulate? && op.sample.key == k && Bucket1m(op.sample.ts) == m
  }

  /** The call ends the stretch of minute m: a flush, or a sample of another minute. */
  predicate Ends(op: Op, m: int) {
    op.Flush? || Bucket1m(op.sample.ts) != m
  }

  ghost predicate Seen(ops: seq<Op>, m: int, k: string) {
    exists i :: 0 <= i < |ops| && IsSample(ops[i], m, k)
  }

  /** A sample of this minute and key has come, and its stretch has ended. */
  ghost predicate Ended(ops: seq<Op>, m: int, k: string) {
    exists i, f :: 0 <= i < f < |ops| && IsSample(ops[i], m, k) && Ends(ops[f], m)
  }

  /** A sample of minute 0 has come and no flush since. */
  ghost predicate UnflushedZero(ops: seq<Op>) {
    exists i :: 0 <= i < |ops| && ops[i].Accumulate? && Bucket1m(ops[i].sample.ts) == 0
                && forall f :: i < f < |ops| ==> !ops[f].Flush?
  }

  /** The next sample neither reopens its minute for its key nor leaves minute 0 unflushed. */
  ghost predicate Fits(ops: seq<Op>, s: MetricSample) {
    !Ended(ops, Bucket1m(s.ts), s.key) && (Bucket1m(s.ts) != 0 ==> !UnflushedZero(ops))
  }

  ghost predicate Uninterrupted(ops: seq<Op>) {
    forall j :: 0 <= j < |ops| && ops[j].Accumulate? ==> Fits(ops[..j], ops[j].sample)
  }

  predicate Written(bs: seq<Batch>, m: int, k: string) {
    LastBatch(bs, m, k) >= 0
  }

  lemma WrittenExtended(bs: seq<Batch>, b: Batch, m: int, k: string)
    ensures Written(bs + [b], m, k) <==> Written(bs, m, k) || Matches(b, m, k)
  {
    assert (bs + [b])[..|bs|] == bs;
  }

  /** How the aggregator's state reflects the calls, while every batch so far is faithful. */
  ghost predicate Link(t: Trace, ops: seq<Op>, m: int, k: string) {
    && (Written(t.batches, m, k) <==> Ended(ops, m, k))
    && (Seen(ops, m, k) <==> Written(t.batches, m, k) || Matches(Batch(t.current, t.pending), m, k))
    && (UnflushedZero(ops) <==> t.current == 0 && t.pending != [])
  }

  lemma CallsExtended(ops: seq<Op>, op: Op, m: int, k: string)
    ensures Seen(ops + [op], m, k) <==> Seen(ops, m, k) || IsSample(op, m, k)
    ensures Ended(ops + [op], m, k) <==> Ended(ops, m, k) || (Ends(op, m) && Seen(ops, m, k))
    ensures UnflushedZero(ops + [op])
            <==> op.Accumulate? && (Bucket1m(op.sample.ts) == 0 || UnflushedZero(ops))
  {
    hide Bucket1m, IsSample, Ends;
    var all, n := ops + [op], |ops|;
    assert forall i :: 0 <= i < n ==> all[i] == ops[i];
    assert all[n] == op;
  }

  lemma UninterruptedExtended(ops: seq<Op>, op: Op)
    ensures Uninterrupted(ops + [op]) <==> Uninterrupted(ops) && (op.Accumulate? ==> Fits(ops, op.sample))
  {
    hide Fits;
    var all, n := ops + [op], |ops|;
    assert forall j :: 0 <= j <= n ==> all[..j] == ops[..j];
    assert ops[..n] == ops && all[n] == op;
    assert forall j :: 0 <= j < n ==> all[j] == ops[j];
  }

  lemma FaithfulExtended(bs: seq<Batch>, b: Batch)
    ensures Faithful(bs + [b])
            <==> Faithful(bs) && InMinute(b, b.bucketTs)
                 && forall k :: k in KeysOf(b.samples) ==> !Written(bs, b.bucketTs, k)
  {
    hide InMinute, KeysOf;
    var all, n := bs + [b], |bs|;
    assert forall i :: 0 <= i < n ==> all[i] == bs[i];
    assert all[n] == b;
  }

  ghost predicate AllLinked(t: Trace, ops: seq<Op>) {
    forall m: int, k: string :: Link(t, ops, m, k)
  }

  /** Everything is faithful once the pending samples are flushed. */
  ghost predicate FaithfulSoFar(t: Trace) {
    Faithful(TraceFlush(t).batches)
  }

  lemma FlushWritten(t: Trace, m: int, k: string)
    ensures Written(TraceFlush(t).batches, m, k)
            <==> Written(t.batches, m, k) || Matches(Batch(t.current, t.pending), m, k)
  {
    hide Written, Matches;
    WrittenExtended(t.batches, Batch(t.current, t.pending), m, k);
    NothingMatches(t.current, m, k);
  }

  lemma NothingMatches(bucketTs: int, m: int, k: string)
    ensures !Matches(Batch(bucketTs, []), m, k)
  {
  }

  lemma FlushLinked(t: Trace, ops: seq<Op>)
    requires AllLinked(t, ops)
    ensures AllLinked(TraceFlush(t), ops + [Flush])
  {
    hide AllLinked, Written, Matches, Seen, Ended, UnflushedZero;
    forall m: int, k: string ensures Link(TraceFlush(t), ops + [Flush], m, k) {
      assert Link(t, ops, m, k) by { LinkOf(t, ops, m, k); }
      CallsExtended(ops, Flush, m, k);
      FlushWritten(t, m, k);
      NothingMatches(t.current, m, k);
    }
    AllLinkedIs(TraceFlush(t), ops + [Flush]);
  }

  lemma LinkOf(t: Trace, ops: seq<Op>, m: int, k: string)
    requires AllLinked(t, ops)
    ensures Link(t, ops, m, k)
  {
  }

  lemma AllLinkedIs(t: Trace, ops: seq<Op>)
    requires forall m: int, k: string :: Link(t, ops, m, k)
    ensures AllLinked(t, ops)
  {
  }

  lemma MatchesWithSample(bucketTs: int, samples: seq<MetricSample>, s: MetricSample, m: int, k: string)
    ensures Matches(Batch(bucketTs, samples + [s]), m, k)
            <==> Matches(Batch(bucketTs, samples), m, k) || (bucketTs == m && s.key == k)
  {
    var all := samples + [s];
    assert forall i :: 0 <= i < |samples| ==> all[i] == samples[i];
    assert all[|samples|] == s;
    if k in KeysOf(samples) {
      var i :| 0 <= i < |samples| && samples[i].key == k;
      assert all[i].key == k;
    }
  }

  /** A new stretch: everything before it has ended. */
  lemma NewStretch(t: Trace, ops: seq<Op>, s: MetricSample)
    requires AllLinked(t, ops) && FaithfulSoFar(t) && Bucket1m(s.ts) != t.current
    requires t.current != 0 || t.pending == []
    ensures var t' := TraceStep(t, Accumulate(s));
            && (FaithfulSoFar(t') <==> Fits(ops, s))
            && AllLinked(t', ops + [Accumulate(s)])
  {
    hide AllLinked, Written, Matches, Seen, Ended, UnflushedZero, Bucket1m, Faithful, InMinute;
    var t', b := TraceStep(t, Accumulate(s)), Bucket1m(s.ts);
    assert t'.batches == TraceFlush(t).batches && t'.pending == [s];
    OneSample(b, s);
    FaithfulExtended(t'.batches, Batch(b, [s]));
    forall m: int, k: string
      ensures Link(t', ops + [Accumulate(s)], m, k)
      ensures m == b ==> (Written(t'.batches, m, k) <==> Ended(ops, m, k))
    {
      LinkOf(t, ops, m, k);
      CallsExtended(ops, Accumulate(s), m, k);
      FlushWritten(t, m, k);
      NothingMatches(b, m, k);
      MatchesWithSample(b, [], s, m, k);
      assert [] + [s] == [s];
      OtherMinute(t.current, t.pending, m, k);
    }
    LinkOf(t, ops, b, s.key);
    AllLinkedIs(t', ops + [Accumulate(s)]);
  }

  lemma OtherMinute(bucketTs: int, samples: seq<MetricSample>, m: int, k: string)
    ensures bucketTs != m ==> !Matches(Batch(bucketTs, samples), m, k)
  {
  }

  lemma OneSample(b: int, s: MetricSample)
    ensures KeysOf([s]) == {s.key} && (InMinute(Batch(b, [s]), b) <==> Bucket1m(s.ts) == b)
  {
    hide Bucket1m;
    assert [s][0] == s;
  }

  lemma MoreSamples(b: int, samples: seq<MetricSample>, s: MetricSample)
    ensures KeysOf(samples + [s]) == KeysOf(samples) + {s.key}
    ensures InMinute(Batch(b, samples + [s]), b) <==> InMinute(Batch(b, samples), b) && Bucket1m(s.ts) == b
  {
    hide Bucket1m;
    var all := samples + [s];
    assert all[|samples|] == s && forall i :: 0 <= i < |samples| ==> all[i] == samples[i];
    forall k | k in KeysOf(samples) ensures k in KeysOf(all) {
      var i :| 0 <= i < |samples| && samples[i].key == k;
      assert all[i].key == k;
    }
  }

  lemma NoSamples(b: int)
    ensures KeysOf([]) == {} && InMinute(Batch(b, []), b)
  {
  }

  /** Faithfulness so far, without the case distinction of an empty bucket. */
  lemma FaithfulSoFarIs(t: Trace)
    ensures FaithfulSoFar(t) <==> Faithful(t.batches + [Batch(t.current, t.pending)])
  {
    hide Faithful, InMinute, Written, KeysOf;
    FaithfulExtended(t.batches, Batch(t.current, t.pending));
    NoSamples(t.current);
  }

  /** One more sample of the current minute. */
  lemma SameStretch(t: Trace, ops: seq<Op>, s: MetricSample)
    requires AllLinked(t, ops) && FaithfulSoFar(t) && Bucket1m(s.ts) == t.current
    ensures var t' := TraceStep(t, Accumulate(s));
            && (FaithfulSoFar(t') <==> Fits(ops, s))
            && AllLinked(t', ops + [Accumulate(s)])
  {
    hide AllLinked, Written, Matches, Seen, Ended, UnflushedZero, Bucket1m, Faithful, FaithfulSoFar, InMinute, KeysOf;
    var t', b := TraceStep(t, Accumulate(s)), t.current;
    assert t' == Trace(b, t.pending + [s], t.batches);
    FaithfulSoFarIs(t);
    FaithfulSoFarIs(t');
    FaithfulExtended(t.batches, Batch(b, t.pending));
    FaithfulExtended(t.batches, Batch(b, t.pending + [s]));
    MoreSamples(b, t.pending, s);
    LinkOf(t, ops, b, s.key);
    forall m: int, k: string ensures Link(t', ops + [Accumulate(s)], m, k) {
      LinkOf(t, ops, m, k);
      CallsExtended(ops, Accumulate(s), m, k);
      MatchesWithSample(b, t.pending, s, m, k);
      OtherMinute(b, t.pending, m, k);
    }
    AllLinkedIs(t', ops + [Accumulate(s)]);
  }

  /** A sample that leaves minute 0 unflushed puts the samples of minute 0 under its own minute. */
  lemma ZeroLeft(t: Trace, ops: seq<Op>, s: MetricSample)
    requires AllLinked(t, ops) && PendingLabelled(t)
    requires Bucket1m(s.ts) != 0 && t.current == 0 && t.pending != []
    ensures !FaithfulSoFar(TraceStep(t, Accumulate(s))) && !Fits(ops, s)
  {
    hide AllLinked, Bucket1m, Faithful, FaithfulSoFar;
    var b := Bucket1m(s.ts);
    LinkOf(t, ops, b, s.key);
    FaithfulSoFarIs(TraceStep(t, Accumulate(s)));
    FaithfulExtended(t.batches, Batch(b, t.pending + [s]));
    assert (t.pending + [s])[0] == t.pending[0];
  }

  /** A violation is never repaired. */
  lemma UnfaithfulStays(t: Trace, op: Op)
    requires PendingLabelled(t) && !FaithfulSoFar(t)
    ensures !FaithfulSoFar(TraceStep(t, op))
  {
    hide Bucket1m, Faithful, FaithfulSoFar, InMinute, KeysOf, Written;
    FaithfulSoFarIs(t);
    FaithfulSoFarIs(TraceFlush(t));
    FaithfulExtended(t.batches, Batch(t.current, t.pending));
    FaithfulExtended(TraceFlush(t).batches, Batch(t.current, []));
    NoSamples(t.current);
    if op.Accumulate? {
      var t' := TraceStep(t, op);
      FaithfulSoFarIs(t');
      FaithfulExtended(t'.batches, Batch(t'.current, t'.pending));
      MoreSamples(t'.current, t.pending, op.sample);
      if t.current == 0 && t'.current != 0 && t.pending != [] {
        PendingMinute(t, t'.current);
      }
    }
  }

  lemma PendingMinute(t: Trace, b: int)
    requires PendingLabelled(t) && t.current == 0 && b != 0 && t.pending != []
    ensures !InMinute(Batch(b, t.pending), b)
  {
    hide Bucket1m;
    assert Bucket1m(t.pending[0].ts) == 0;
  }

  lemma NothingYet()
    ensures AllLinked(Trace(0, [], []), []) && FaithfulSoFar(Trace(0, [], [])) && Uninterrupted([])
  {
  }

  /** The flushed batches of a run are faithful exactly if its calls are uninterrupted. */
  lemma {:induction false} FaithfulCalls(ops: seq<Op>)
    ensures FaithfulSoFar(RunTrace(ops)) <==> Uninterrupted(ops)
    ensures Uninterrupted(ops) ==> AllLinked(RunTrace(ops), ops)
  {
    hide FaithfulSoFar, Uninterrupted, AllLinked, Fits, Bucket1m, PendingLabelled;
    if ops == [] {
      NothingYet();
    } else {
      var init, last := ops[..|ops| - 1], ops[|ops| - 1];
      var t := RunTrace(init);
      assert init + [last] == ops;
      FaithfulCalls(init);
      RunLabelled(init);
      UninterruptedExtended(init, last);
      if !Uninterrupted(init) {
        UnfaithfulStays(t, last);
      } else if last.Flush? {
        FlushLinked(t, init);
        FlushedTwice(t);
      } else if Bucket1m(last.sample.ts) == t.current {
        SameStretch(t, init, last.sample);
      } else if t.current != 0 || t.pending == [] {
        NewStretch(t, init, last.sample);
      } else {
        ZeroLeft(t, init, last.sample);
      }
    }
  }

  lemma FlushedTwice(t: Trace)
    ensures FaithfulSoFar(TraceFlush(t)) <==> FaithfulSoFar(t)
  {
    hide Faithful;
  }

  /**
   For every run of samples and flushes, on top of any stored rows, the table after a final flush is
   the old rows and the group-by of all the samples on (minute, key) if the calls are uninterrupted:
   no sample comes after the stretch of its own minute and key was ended by a flush or by a sample of
   another minute, and minute 0, which stands for "no bucket yet", is flushed from outside before it
   is left. It is so only if they are, as long as the run meets no old row of its groups.
   */
  lemma StoredTableIsGroupBy(stored: Table, ops: seq<Op>)
    ensures Uninterrupted(ops) ==> FinalTable(stored, ops) == stored + GroupBy(SamplesOf(ops))
    ensures stored.Keys !! GroupKeys(SamplesOf(ops)) ==>
              (FinalTable(stored, ops) == stored + GroupBy(SamplesOf(ops)) <==> Uninterrupted(ops))
  {
    FinalTableIsGroupBy(stored, ops);
    FaithfulCalls(ops);
  }

  // Restarts: the table outlives the aggregator.

  lemma GroupKeysConcat(a: seq<MetricSample>, b: seq<MetricSample>)
    ensures GroupKeys(a + b) == GroupKeys(a) + GroupKeys(b)
  {
    hide Group, GroupKeys;
    forall m: int, k: string ensures (m, k) in GroupKeys(a + b) <==> (m, k) in GroupKeys(a) + GroupKeys(b) {
      GroupConcat(a, b, m, k);
      GroupKeysMember(a, m, k);
      GroupKeysMember(b, m, k);
      GroupKeysMember(a + b, m, k);
    }
    PairsDecide(GroupKeys(a + b), GroupKeys(a) + GroupKeys(b));
  }

  lemma PairsDecide(x: set<(int, string)>, y: set<(int, string)>)
    requires forall m: int, k: string :: (m, k) in x <==> (m, k) in y
    ensures x == y
  {
    forall p: (int, string) ensures p in x <==> p in y {
      var m, k := p.0, p.1;
      assert p == (m, k);
      assert (m, k) in x <==> (m, k) in y;
    }
  }

  /** One group-by written over another: a group that both have keeps only the later samples. */
  lemma GroupByTwice(a: seq<MetricSample>, b: seq<MetricSample>, m: int, k: string)
    requires (m, k) in GroupKeys(a) + GroupKeys(b)
    ensures var written, all := GroupBy(a) + GroupBy(b), GroupBy(a + b);
            && (m, k) in written && (m, k) in all
            && (written[(m, k)] == all[(m, k)] <==> !((m, k) in GroupKeys(a) && (m, k) in GroupKeys(b)))
  {
    GroupKeysConcat(a, b);
    hide Group, GroupKeys, RowOf;
    GroupConcat(a, b, m, k);
    GroupKeysMember(a, m, k);
    GroupKeysMember(b, m, k);
    RowCount(Group(b, m, k));
    RowCount(Group(a + b, m, k));
    assert [] + Group(b, m, k) == Group(b, m, k) && Group(a, m, k) + [] == Group(a, m, k);
  }

  /** Two group-bys written one after the other are the group-by of all samples exactly if they share no group. */
  lemma GroupBysCombine(stored: Table, a: seq<MetricSample>, b: seq<MetricSample>)
    ensures stored + GroupBy(a) + GroupBy(b) == stored + GroupBy(a + b) <==> GroupKeys(a) !! GroupKeys(b)
  {
    GroupKeysConcat(a, b);
    hide GroupKeys, RowOf, Group;
    var x, y := stored + GroupBy(a) + GroupBy(b), stored + GroupBy(a + b);
    forall m: int, k: string | (m, k) in GroupKeys(a) + GroupKeys(b)
      ensures x[(m, k)] == y[(m, k)] <==> !((m, k) in GroupKeys(a) && (m, k) in GroupKeys(b))
    {
      GroupByTwice(a, b, m, k);
    }
    forall p | p in GroupKeys(a) + GroupKeys(b)
      ensures x[p] == y[p] <==> !(p in GroupKeys(a) && p in GroupKeys(b))
    {
      assert p == (p.0, p.1);
    }
    assert x.Keys == y.Keys;
    if x == y {
      forall p | p in GroupKeys(a) ensures p !in GroupKeys(b) {
        assert x[p] == y[p];
      }
    }
  }

  /**
   When the service is restarted between two uninterrupted runs, each ending with a flush, the table
   is the group-by of the samples of both if and only if they share no minute of any key.
   */
  lemma RestartKeepsGroupBy(stored: Table, ops: seq<Op>, later: seq<Op>)
    requires Uninterrupted(ops) && Uninterrupted(later)
    ensures FinalTable(FinalTable(stored, ops), later) == stored + GroupBy(SamplesOf(ops) + SamplesOf(later))
            <==> GroupKeys(SamplesOf(ops)) !! GroupKeys(SamplesOf(later))
  {
    StoredTableIsGroupBy(stored, ops);
    StoredTableIsGroupBy(FinalTable(stored, ops), later);
    GroupBysCombine(stored, SamplesOf(ops), SamplesOf(later));
  }

  // A sufficient condition.

  /**
   Timestamps never decrease and lie past the first minute, and flush_1m is called from outside
   only between minutes.
   */
  ghost predicate Orderly(ops: seq<Op>) {
    && (forall i :: 0 <= i < |ops| && ops[i].Accumulate? ==> ops[i].sample.ts >= 60)
    && (forall i, j :: 0 <= i < j < |ops| && ops[i].Accumulate? && ops[j].Accumulate? ==>
         ops[i].sample.ts <= ops[j].sample.ts)
    && (forall i, f, j :: 0 <= i < f < j < |ops| && ops[i].Accumulate? && ops[f].Flush? && ops[j].Accumulate? ==>
          Bucket1m(ops[i].sample.ts) != Bucket1m(ops[j].sample.ts))
  }

  lemma BucketMonotone(x: int, y: int)
    requires 60 <= x <= y
    ensures 60 <= Bucket1m(x) <= Bucket1m(y)
  {
  }

  /** In every orderly run the table after a final flush is the group-by of all samples. */
  lemma OrderlyRunsAreGroupBy(stored: Table, ops: seq<Op>)
    requires Orderly(ops)
    ensures Uninterrupted(ops) && FinalTable(stored, ops) == stored + GroupBy(SamplesOf(ops))
  {
    StoredTableIsGroupBy(stored, ops);
    hide FinalTable, GroupBy, SamplesOf;
    forall j | 0 <= j < |ops| && ops[j].Accumulate? ensures Fits(ops[..j], ops[j].sample) {
      OrderlyFits(ops, j);
    }
  }

  lemma OrderlyFits(ops: seq<Op>, j: nat)
    requires Orderly(ops) && j < |ops| && ops[j].Accumulate?
    ensures Fits(ops[..j], ops[j].sample)
  {
    hide Bucket1m;
    var before, s := ops[..j], ops[j].sample;
    assert forall i :: 0 <= i < j ==> before[i] == ops[i];
    if i, f :| 0 <= i < f < j && IsSample(before[i], Bucket1m(s.ts), s.key) && Ends(before[f], Bucket1m(s.ts)) {
      assert ops[i].Accumulate?;
      if ops[f].Accumulate? {
        BucketMonotone(ops[i].sample.ts, ops[f].sample.ts);
        BucketMonotone(ops[f].sample.ts, s.ts);
      }
    }
    forall i | 0 <= i < j && before[i].Accumulate? ensures Bucket1m(before[i].sample.ts) != 0 {
      assert ops[i].Accumulate?;
      BucketMonotone(ops[i].sample.ts, ops[i].sample.ts);
    }
  }

  /** One flush in the middle of a minute is enough to lose the samples before it. */
  lemma FlushInsideMinuteLosesSamples(s: MetricSample, s': MetricSample)
    requires s.key == s'.key && Bucket1m(s.ts) == Bucket1m(s'.ts)
    ensures var ops := [Accumulate(s), Flush, Accumulate(s')];
            FinalTable(map[], ops) != GroupBy(SamplesOf(ops))
  {
    hide Bucket1m, FinalTable, SamplesOf, GroupBy;
    var ops := [Accumulate(s), Flush, Accumulate(s')];
    StoredTableIsGroupBy(map[], ops);
    assert map[] + GroupBy(SamplesOf(ops)) == GroupBy(SamplesOf(ops));
    var before := ops[..2];
    assert IsSample(before[0], Bucket1m(s'.ts), s'.key) && Ends(before[1], Bucket1m(s'.ts));
    assert !Fits(before, ops[2].sample);
  }
}
