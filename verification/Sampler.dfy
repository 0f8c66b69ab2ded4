/** The tick arithmetic of one collector, in 32-bit milliseconds. */
module SchedulerSpec {
  import opened Wrappers
  import opened Masks
  import Bytes

  const TWO_TO_THE_32: int := 0x1_0000_0000
  const TICK_MS: nat := 1000
  const LONGEST_EXACT_INTERVAL: nat := 4294967000

  /** The counter after one more tick, before the comparison. */
  function Advance(elapsed: nat): (e: nat)
    ensures e < TWO_TO_THE_32
  {
    (elapsed + TICK_MS) % TWO_TO_THE_32
  }

  /** The counter of a collector after `n` ticks. */
  function Elapsed(interval: nat, n: nat): nat {
    if n == 0 then 0
    else
      var e := Advance(Elapsed(interval, n - 1));
      if e >= interval then 0 else e
  }

  /** Whether the collector runs at tick `n`; ticks count from 1. */
  predicate Due(interval: nat, n: nat)
    requires n > 0
  {
    Advance(Elapsed(interval, n - 1)) >= interval
  }

  /** The interval in ticks of one second, rounded up, and at least one. */
  function Period(interval: nat): (p: nat)
    ensures p > 0
    ensures interval > 0 ==> 1000 * (p - 1) < interval <= 1000 * p
    ensures interval == 0 ==> p == 1
  {
    if interval == 0 then 1 else (interval + TICK_MS - 1) / TICK_MS
  }

  // The ticks since the latest multiple of the period p are Slot(n, p).

  lemma NextSlot(n: nat, p: nat)
    requires p > 0
    ensures Slot(n + 1, p) == if Slot(n, p) + 1 == p then 0 else Slot(n, p) + 1
    ensures (n + 1) / p == if Slot(n, p) + 1 == p then n / p + 1 else n / p
    ensures Slot(0, p) == 0
  {
    var q, r := n / p, n % p;
    assert n == p * q + r;
    if r + 1 == p {
      assert n + 1 == p * (q + 1);
      Bytes.QuotientUnique(n + 1, p, q + 1, 0);
    } else {
      Bytes.QuotientUnique(n + 1, p, q, r + 1);
    }
  }

  lemma OneTick(interval: nat, r: nat)
    requires interval <= LONGEST_EXACT_INTERVAL && r < Period(interval)
    ensures TICK_MS * r + TICK_MS < TWO_TO_THE_32 && Advance(TICK_MS * r) == TICK_MS * (r + 1)
    ensures Advance(TICK_MS * r) >= interval <==> r + 1 == Period(interval)
  {
  }

  /** The counter never wraps: it is a thousand times the ticks since the last run. */
  lemma {:induction false} ElapsedCountsTicks(interval: nat, n: nat)
    requires interval <= LONGEST_EXACT_INTERVAL
    ensures Elapsed(interval, n) == TICK_MS * Slot(n, Period(interval))
    ensures Elapsed(interval, n) + TICK_MS < TWO_TO_THE_32
    ensures n > 0 ==> (Due(interval, n) <==> Slot(n, Period(interval)) == 0)
  {
    hide Period, Advance, Slot;
    var p := Period(interval);
    OneTick(interval, Slot(n, p));
    if n == 0 {
      NextSlot(0, p);
    } else {
      ElapsedCountsTicks(interval, n - 1);
      OneTick(interval, Slot(n - 1, p));
      NextSlot(n - 1, p);
    }
  }

  lemma {:induction false} ElapsedBeforeWrap(interval: nat, n: nat)
    requires LONGEST_EXACT_INTERVAL < interval < TWO_TO_THE_32 && n < 4294968
    ensures Elapsed(interval, n) == TICK_MS * n
  {
    if n > 0 {
      ElapsedBeforeWrap(interval, n - 1);
    }
  }

  /**
   A collector runs exactly at the multiples of its period, on every tick for ever, if and only if
   its interval is at most 4294967000 ms; a longer one is skipped at its first due tick because the
   32-bit counter wraps below it.
   */
  lemma RunsAtMultiplesExactly(interval: nat)
    requires interval < TWO_TO_THE_32
    ensures (forall n :: n > 0 ==> (Due(interval, n) <==> n % Period(interval) == 0))
            <==> interval <= 4294967000
  {
    if interval <= LONGEST_EXACT_INTERVAL {
      forall n | n > 0 ensures Due(interval, n) <==> n % Period(interval) == 0 {
        ElapsedCountsTicks(interval, n);
      }
    } else {
      var n := 4294968;
      ElapsedBeforeWrap(interval, n - 1);
      assert Period(interval) == n && !Due(interval, n);
    }
  }

  // The whole list of collectors.

  datatype Collector = Collector(name: string, intervalMs: nat, elapsedMs: nat)

  datatype CollectorRun = CollectorRun(tick: nat, index: nat)

  predicate IsDue(c: Collector) {
    Advance(c.elapsedMs) >= c.intervalMs
  }

  function Ticked(c: Collector): Collector {
    c.(elapsedMs := if IsDue(c) then 0 else Advance(c.elapsedMs))
  }

  function TickAll(cs: seq<Collector>): (r: seq<Collector>)
    ensures |r| == |cs|
  {
    seq(|cs|, i requires 0 <= i < |cs| => Ticked(cs[i]))
  }

  /** The collectors that run at a tick, in registration order. */
  function RunsAt(cs: seq<Collector>, tick: nat): seq<CollectorRun> {
    if cs == [] then []
    else
      var n := |cs| - 1;
      RunsAt(cs[..n], tick) + (if IsDue(cs[n]) then [CollectorRun(tick, n)] else [])
  }

  lemma {:induction false} RunsAtInOrder(cs: seq<Collector>, tick: nat)
    ensures forall r :: r in RunsAt(cs, tick) <==> r.tick == tick && r.index < |cs| && IsDue(cs[r.index])
    ensures forall j, k :: 0 <= j < k < |RunsAt(cs, tick)| ==> RunsAt(cs, tick)[j].index < RunsAt(cs, tick)[k].index
  {
    if cs == [] {
    } else {
      RunsAtInOrder(cs[..|cs| - 1], tick);
    }
  }

  // What is logged: nothing but the exceptions that callbacks throw.

  datatype LogEntry = CollectorFailed(name: string) | PostTickFailed

  function NamesOf(cs: seq<Collector>): seq<string> {
    seq(|cs|, i requires 0 <= i < |cs| => cs[i].name)
  }

  function FailureOf(run: CollectorRun, names: seq<string>, throws: (nat, nat) -> bool): seq<LogEntry> {
    if run.index < |names| && throws(run.tick, run.index) then [CollectorFailed(names[run.index])] else []
  }

  /** The entries for those runs in which the collector threw. */
  function FailuresOf(runs: seq<CollectorRun>, names: seq<string>, throws: (nat, nat) -> bool): seq<LogEntry> {
    if runs == [] then []
    else FailuresOf(runs[..|runs| - 1], names, throws) + FailureOf(runs[|runs| - 1], names, throws)
  }

  lemma {:induction false} FailuresOfConcat(a: seq<CollectorRun>, b: seq<CollectorRun>, names: seq<string>,
                                            throws: (nat, nat) -> bool)
    ensures FailuresOf(a + b, names, throws) == FailuresOf(a, names, throws) + FailuresOf(b, names, throws)
  {
    hide FailureOf;
    if b == [] {
      assert a + b == a;
    } else {
      var init := b[..|b| - 1];
      FailuresOfConcat(a, init, names, throws);
      assert (a + b)[..|a + b| - 1] == a + init;
    }
  }

  /** A run that throws is logged with the name of its collector, any other run is not. */
  lemma OnlyFailure(run: CollectorRun, names: seq<string>, throws: (nat, nat) -> bool)
    requires run.index < |names|
    ensures FailuresOf([run], names, throws)
            == if throws(run.tick, run.index) then [CollectorFailed(names[run.index])] else []
  {
    assert [run][..0] == [];
  }

  lemma NoCollectors(tick: nat, names: seq<string>, throws: (nat, nat) -> bool)
    ensures RunsAt([], tick) == [] && FailuresOf([], names, throws) == []
  {
  }

  lemma OneMoreCollector(cs: seq<Collector>, i: nat, tick: nat, throws: (nat, nat) -> bool)
    requires i < |cs|
    ensures RunsAt(cs[..i + 1], tick) == RunsAt(cs[..i], tick) + (if IsDue(cs[i]) then [CollectorRun(tick, i)] else [])
    ensures FailuresOf(RunsAt(cs[..i + 1], tick), NamesOf(cs), throws)
            == FailuresOf(RunsAt(cs[..i], tick), NamesOf(cs), throws)
               + (if IsDue(cs[i]) && throws(tick, i) then [CollectorFailed(cs[i].name)] else [])
  {
    var done, runs := cs[..i + 1], RunsAt(cs[..i], tick);
    assert done[..i] == cs[..i] && done[i] == cs[i];
    OneMoreRun(runs, CollectorRun(tick, i), NamesOf(cs), throws);
    hide FailuresOf, IsDue;
    assert runs + [] == runs;
  }

  lemma OneMoreRun(runs: seq<CollectorRun>, run: CollectorRun, names: seq<string>, throws: (nat, nat) -> bool)
    ensures FailuresOf(runs + [run], names, throws) == FailuresOf(runs, names, throws) + FailureOf(run, names, throws)
  {
    assert (runs + [run])[..|runs|] == runs;
  }

  datatype Schedule = Schedule(collectors: seq<Collector>, ticks: nat, runs: seq<CollectorRun>)

  function Tick(s: Schedule): Schedule {
    Schedule(TickAll(s.collectors), s.ticks + 1, s.runs + RunsAt(s.collectors, s.ticks + 1))
  }

  function RunTicks(s: Schedule, n: nat): Schedule {
    if n == 0 then s else Tick(RunTicks(s, n - 1))
  }

  /** The callback after every tick, if one is set, given by the ticks at which it throws. */
  type PostTick = Option<nat -> bool>

  function PostLog(tick: nat, post: PostTick): seq<LogEntry> {
    if post.Some? && post.value(tick) then [PostTickFailed] else []
  }

  function TickLog(s: Schedule, throws: (nat, nat) -> bool, post: PostTick): seq<LogEntry> {
    FailuresOf(RunsAt(s.collectors, s.ticks + 1), NamesOf(s.collectors), throws) + PostLog(s.ticks + 1, post)
  }

  function RunLog(s: Schedule, n: nat, throws: (nat, nat) -> bool, post: PostTick): seq<LogEntry> {
    if n == 0 then [] else RunLog(s, n - 1, throws, post) + TickLog(RunTicks(s, n - 1), throws, post)
  }

  function CollectorEntries(log: seq<LogEntry>): seq<LogEntry> {
    if log == [] then []
    else
      var last := log[|log| - 1];
      CollectorEntries(log[..|log| - 1]) + (if last.CollectorFailed? then [last] else [])
  }

  lemma {:induction false} CollectorEntriesConcat(a: seq<LogEntry>, b: seq<LogEntry>)
    ensures CollectorEntries(a + b) == CollectorEntries(a) + CollectorEntries(b)
  {
    if b == [] {
      assert a + b == a;
    } else {
      CollectorEntriesConcat(a, b[..|b| - 1]);
      assert (a + b)[..|a + b| - 1] == a + b[..|b| - 1];
    }
  }

  lemma {:induction false} FailuresAreCollectorEntries(runs: seq<CollectorRun>, names: seq<string>,
                                                       throws: (nat, nat) -> bool)
    ensures CollectorEntries(FailuresOf(runs, names, throws)) == FailuresOf(runs, names, throws)
  {
    if runs != [] {
      var init, last := runs[..|runs| - 1], runs[|runs| - 1];
      FailuresAreCollectorEntries(init, names, throws);
      CollectorEntriesConcat(FailuresOf(init, names, throws), FailureOf(last, names, throws));
      OneEntry(FailureOf(last, names, throws));
    }
  }

  lemma OneEntry(log: seq<LogEntry>)
    requires |log| <= 1
    ensures CollectorEntries(log) == if log != [] && log[0].CollectorFailed? then log else []
  {
    if log != [] {
      assert log == [log[0]] && log[..0] == [];
    }
  }

  /**
   Over whole runs and whatever throws, the schedule is the same (it does not mention exceptions at
   all), and the collector entries of the log are exactly the runs that threw, in order.
   */
  lemma {:induction false} LogIsFailedRuns(s: Schedule, n: nat, throws: (nat, nat) -> bool, post: PostTick)
    ensures var runs := RunTicks(s, n).runs;
            && |runs| >= |s.runs| && runs[..|s.runs|] == s.runs
            && NamesOf(RunTicks(s, n).collectors) == NamesOf(s.collectors)
            && CollectorEntries(RunLog(s, n, throws, post))
               == FailuresOf(runs[|s.runs|..], NamesOf(s.collectors), throws)
  {
    hide FailuresOf, RunsAt, CollectorEntries, Ticked;
    if n == 0 {
      NoEntries(NamesOf(s.collectors), throws);
      assert s.runs[|s.runs|..] == [];
    } else {
      var before := RunTicks(s, n - 1);
      var earlier, more := before.runs, RunsAt(before.collectors, before.ticks + 1);
      LogIsFailedRuns(s, n - 1, throws, post);
      TickKeepsNames(before.collectors);
      assert (earlier + more)[|s.runs|..] == earlier[|s.runs|..] + more;
      FailuresOfConcat(earlier[|s.runs|..], more, NamesOf(s.collectors), throws);
      CollectorEntriesConcat(RunLog(s, n - 1, throws, post), TickLog(before, throws, post));
      CollectorEntriesConcat(FailuresOf(more, NamesOf(s.collectors), throws), PostLog(before.ticks + 1, post));
      FailuresAreCollectorEntries(more, NamesOf(s.collectors), throws);
      OneEntry(PostLog(before.ticks + 1, post));
    }
  }

  lemma NoEntries(names: seq<string>, throws: (nat, nat) -> bool)
    ensures CollectorEntries([]) == [] && FailuresOf([], names, throws) == []
  {
  }

  lemma TickKeepsNames(cs: seq<Collector>)
    ensures NamesOf(TickAll(cs)) == NamesOf(cs)
  {
  }

  /** The ticks at which one collector ran. */
  function TicksOf(runs: seq<CollectorRun>, index: nat): seq<nat> {
    if runs == [] then []
    else
      var r := runs[|runs| - 1];
      TicksOf(runs[..|runs| - 1], index) + (if r.index == index then [r.tick] else [])
  }

  lemma {:induction false} TicksOfConcat(a: seq<CollectorRun>, b: seq<CollectorRun>, index: nat)
    ensures TicksOf(a + b, index) == TicksOf(a, index) + TicksOf(b, index)
  {
    if b == [] {
      assert a + b == a;
    } else {
      TicksOfConcat(a, b[..|b| - 1], index);
      assert (a + b)[..|a + b| - 1] == a + b[..|b| - 1];
    }
  }

  lemma {:induction false} TicksOfOneTick(cs: seq<Collector>, tick: nat, index: nat)
    ensures TicksOf(RunsAt(cs, tick), index) == if index < |cs| && IsDue(cs[index]) then [tick] else []
  {
    if cs == [] {
    } else {
      var n := |cs| - 1;
      TicksOfOneTick(cs[..n], tick, index);
      var last := if IsDue(cs[n]) then [CollectorRun(tick, n)] else [];
      TicksOfConcat(RunsAt(cs[..n], tick), last, index);
      assert last != [] ==> last[..0] == [];
    }
  }

  ghost predicate FreshlyAdded(cs: seq<Collector>) {
    forall i :: 0 <= i < |cs| ==> cs[i].elapsedMs == 0
  }

  /** The first `count` multiples of `p`. */
  function Multiples(p: nat, count: nat): (s: seq<nat>)
    ensures |s| == count && forall k :: 0 <= k < count ==> s[k] == (k + 1) * p
  {
    seq(count, k requires 0 <= k < count => (k + 1) * p)
  }

  lemma {:induction false} CountersAfterTicks(s: Schedule, n: nat)
    requires FreshlyAdded(s.collectors)
    ensures var r := RunTicks(s, n);
            && r.ticks == s.ticks + n && |r.collectors| == |s.collectors|
            && forall i :: 0 <= i < |s.collectors| ==>
                 r.collectors[i] == s.collectors[i].(elapsedMs := Elapsed(s.collectors[i].intervalMs, n))
  {
    if n > 0 {
      CountersAfterTicks(s, n - 1);
    }
  }

  /**
   Over any number of ticks a collector runs at the multiples of its period and at no other tick,
   so floor(n / period) times, whatever else is registered.
   */
  lemma {:induction false} CollectorSchedule(cs: seq<Collector>, n: nat, i: nat)
    requires FreshlyAdded(cs) && i < |cs| && cs[i].intervalMs <= LONGEST_EXACT_INTERVAL
    ensures var p := Period(cs[i].intervalMs);
            TicksOf(RunTicks(Schedule(cs, 0, []), n).runs, i) == Multiples(p, n / p)
  {
    hide Period, Slot, Advance, Elapsed, Multiples, RunsAt, TicksOf;
    var s, interval := Schedule(cs, 0, []), cs[i].intervalMs;
    var p := Period(interval);
    if n == 0 {
      NothingYet(p, i);
    } else {
      var before := RunTicks(s, n - 1);
      CollectorSchedule(cs, n - 1, i);
      CountersAfterTicks(s, n - 1);
      TicksOfConcat(before.runs, RunsAt(before.collectors, n), i);
      TicksOfOneTick(before.collectors, n, i);
      ElapsedCountsTicks(interval, n);
      MultiplesUpTo(p, n);
    }
  }

  lemma NothingYet(p: nat, index: nat)
    requires p > 0
    ensures TicksOf([], index) == Multiples(p, 0 / p)
  {
  }

  lemma MultiplesUpTo(p: nat, n: nat)
    requires p > 0 && n > 0
    ensures Multiples(p, n / p) == Multiples(p, (n - 1) / p) + (if Slot(n, p) == 0 then [n] else [])
  {
    NextSlot(n - 1, p);
    var q := n / p;
    if n % p == 0 {
      assert n == q * p;
    }
  }
}

/** The sampler of src/core/sampler.cpp: its collector list and its tick loop. */
module Sampling {
  import opened Wrappers
  import opened SchedulerSpec

  class Sampler {
    var collectors: seq<Collector>
    var hasPostTick: bool
    var ticks: nat
    var runs: seq<CollectorRun>
    var postTicks: seq<nat>
    var log: seq<LogEntry>

    ghost function Abs(): Schedule
      reads this
    {
      Schedule(collectors, ticks, runs)
    }

    /** The callback that is called, if one is set. */
    function Post(postThrows: nat -> bool): PostTick
      reads this
    {
      if hasPostTick then Some(postThrows) else None
    }

    constructor ()
      ensures Abs() == Schedule([], 0, []) && log == [] && !hasPostTick && postTicks == []
    {
      collectors, ticks, runs, log := [], 0, [], [];
      hasPostTick, postTicks := false, [];
    }

    method AddCollector(name: string, intervalMs: nat)
      modifies this`collectors
      ensures collectors == old(collectors) + [Collector(name, intervalMs, 0)]
    {
      collectors := collectors + [Collector(name, intervalMs, 0)];
    }

    method SetPostTickCallback()
      modifies this`hasPostTick
      ensures hasPostTick
    {
      hasPostTick := true;
    }

    /** One tick. `throws` and `postThrows` say which callbacks throw; that is logged and nothing else. */
    method Tick(throws: (nat, nat) -> bool, postThrows: nat -> bool)
      modifies this`collectors, this`ticks, this`runs, this`postTicks, this`log
      ensures Abs() == SchedulerSpec.Tick(old(Abs()))
      ensures log == old(log) + TickLog(old(Abs()), throws, Post(postThrows))
      ensures log == old(log) + FailuresOf(RunsAt(old(collectors), ticks), NamesOf(old(collectors)), throws)
                     + if hasPostTick && postThrows(ticks) then [PostTickFailed] else []
      ensures postTicks == old(postTicks) + if hasPostTick then [ticks] else []
    {
      hide Advance, RunsAt, FailuresOf;
      var tick := ticks + 1;
      RunCollectors(tick, throws);
      if hasPostTick {
        postTicks := postTicks + [tick];
        if postThrows(tick) {
          log := log + [PostTickFailed];
        }
      }
      ticks := tick;
    }

    /** The loop over the collectors. */
    method RunCollectors(tick: nat, throws: (nat, nat) -> bool)
      modifies this`collectors, this`runs, this`log
      ensures collectors == TickAll(old(collectors)) && runs == old(runs) + RunsAt(old(collectors), tick)
      ensures log == old(log) + FailuresOf(RunsAt(old(collectors), tick), NamesOf(old(collectors)), throws)
    {
      hide Advance, RunsAt, FailuresOf, NamesOf;
      ghost var before, names := collectors, NamesOf(collectors);
      NoCollectors(tick, names, throws);
      for i := 0 to |collectors|
        invariant |collectors| == |before|
        invariant forall k :: 0 <= k < |before| ==> collectors[k] == if k < i then Ticked(before[k]) else before[k]
        invariant runs == old(runs) + RunsAt(before[..i], tick)
        invariant log == old(log) + FailuresOf(RunsAt(before[..i], tick), names, throws)
      {
        var col := collectors[i];
        OneMoreCollector(before, i, tick, throws);
        col := col.(elapsedMs := Advance(col.elapsedMs));
        if col.elapsedMs >= col.intervalMs {
          col := col.(elapsedMs := 0);
          runs := runs + [CollectorRun(tick, i)];
          if throws(tick, i) {
            log := log + [CollectorFailed(col.name)];
          }
        }
        collectors := collectors[i := col];
      }
      assert before[..|before|] == before;
    }

    /** The sampling loop for `n` ticks. */
    method Run(n: nat, throws: (nat, nat) -> bool, postThrows: nat -> bool)
      modifies this`collectors, this`ticks, this`runs, this`postTicks, this`log
      ensures Abs() == RunTicks(old(Abs()), n)
      ensures log == old(log) + RunLog(old(Abs()), n, throws, Post(postThrows))
      ensures postTicks == old(postTicks) + if hasPostTick then TicksFrom(old(ticks), n) else []
    {
      hide TickLog, SchedulerSpec.Tick, TicksFrom, FailuresOf, RunsAt, NamesOf;
      ghost var post := Post(postThrows);
      OneMoreTick(ticks, 0);
      var t := 0;
      while t < n
        invariant t <= n && Abs() == RunTicks(old(Abs()), t) && ticks == old(ticks) + t
        invariant log == old(log) + RunLog(old(Abs()), t, throws, post)
        invariant postTicks == old(postTicks) + if hasPostTick then TicksFrom(old(ticks), t) else []
      {
        OneMoreTick(old(ticks), t);
        TickCounts(Abs());
        Tick(throws, postThrows);
        t := t + 1;
      }
    }
  }

  lemma TickCounts(s: Schedule)
    ensures SchedulerSpec.Tick(s).ticks == s.ticks + 1
  {
  }

  lemma OneMoreTick(start: nat, n: nat)
    ensures TicksFrom(start, n + 1) == TicksFrom(start, n) + [start + n + 1] && TicksFrom(start, 0) == []
  {
  }

  /** The ticks after `start`, one by one. */
  function TicksFrom(start: nat, n: nat): seq<nat> {
    seq(n, i requires 0 <= i < n => start + 1 + i)
  }
}
