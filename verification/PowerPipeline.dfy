/** The meaning of the rolling window and of the energy counter, over an unbounded update history. */
module PowerSpec {
  import opened Averages

  datatype PowerSample = PowerSample(watts: real, ts: int)

  const MAX_WINDOW: nat := 900

  function Sum(s: seq<PowerSample>): real {
    if s == [] then 0.0 else Sum(s[..|s| - 1]) + s[|s| - 1].watts
  }

  function Mean(s: seq<PowerSample>): real {
    Average(Sum(s), |s|)
  }

  /** The length of the longest suffix whose timestamps all reach the cutoff. */
  function SuffixLength(s: seq<PowerSample>, cutoff: int): (n: nat)
    ensures n <= |s|
    ensures forall i :: |s| - n <= i < |s| ==> s[i].ts >= cutoff
    ensures n < |s| ==> s[|s| - 1 - n].ts < cutoff
  {
    if s == [] || s[|s| - 1].ts < cutoff then 0 else 1 + SuffixLength(s[..|s| - 1], cutoff)
  }

  /** The suffix length is the only number with the two properties above. */
  lemma SuffixLengthUnique(s: seq<PowerSample>, cutoff: int, n: nat)
    requires n <= |s| && forall i :: |s| - n <= i < |s| ==> s[i].ts >= cutoff
    requires n < |s| ==> s[|s| - 1 - n].ts < cutoff
    ensures SuffixLength(s, cutoff) == n
  {
  }

  lemma {:induction false} SumFromFront(s: seq<PowerSample>)
    requires s != []
    ensures Sum(s) == s[0].watts + Sum(s[1..])
  {
    if |s| > 1 {
      SumFromFront(s[..|s| - 1]);
      assert s[..|s| - 1][1..] == s[1..][..|s| - 2];
    }
  }

  function LastUpdates(history: seq<PowerSample>, n: nat): seq<PowerSample> {
    if |history| <= n then history else history[|history| - n..]
  }

  function LastTs(history: seq<PowerSample>): int {
    if history == [] then 0 else history[|history| - 1].ts
  }

  /** The samples that avg_watts averages: the longest in-window suffix of the last 900 updates. */
  function Averaged(history: seq<PowerSample>, window: int): seq<PowerSample> {
    var recent := LastUpdates(history, MAX_WINDOW);
    recent[|recent| - SuffixLength(recent, LastTs(history) - window)..]
  }

  /** Every update ever made whose timestamp lies in the window. */
  function InWindow(history: seq<PowerSample>, cutoff: int): seq<PowerSample> {
    if history == [] then []
    else
      var last := history[|history| - 1];
      InWindow(history[..|history| - 1], cutoff) + (if last.ts >= cutoff then [last] else [])
  }

  ghost predicate NonDecreasing(history: seq<PowerSample>) {
    forall i, j :: 0 <= i < j < |history| ==> history[i].ts <= history[j].ts
  }

  ghost predicate StrictlyIncreasing(history: seq<PowerSample>) {
    forall i, j :: 0 <= i < j < |history| ==> history[i].ts < history[j].ts
  }

  lemma SuffixWithLast<T>(s: seq<T>, n: nat)
    requires n < |s|
    ensures s[..|s| - 1][|s| - 1 - n..] + [s[|s| - 1]] == s[|s| - 1 - n..]
  {
  }

  lemma {:induction false} InWindowOfSorted(history: seq<PowerSample>, cutoff: int)
    requires NonDecreasing(history)
    ensures InWindow(history, cutoff) == history[|history| - SuffixLength(history, cutoff)..]
  {
    if history == [] {
    } else {
      var init, last := history[..|history| - 1], history[|history| - 1];
      InWindowOfSorted(init, cutoff);
      if last.ts >= cutoff {
        SuffixWithLast(history, SuffixLength(init, cutoff));
      } else if init != [] {
        assert init[|init| - 1].ts < cutoff;
      }
    }
  }

  lemma {:induction false} SuffixOfSuffix(s: seq<PowerSample>, cutoff: int, n: nat)
    requires n <= |s|
    ensures SuffixLength(s[|s| - n..], cutoff) == if SuffixLength(s, cutoff) <= n then SuffixLength(s, cutoff) else n
  {
    if n == 0 {
    } else {
      var t := s[|s| - n..];
      assert t[n - 1] == s[|s| - 1];
      if s[|s| - 1].ts >= cutoff {
        var init := s[..|s| - 1];
        SuffixOfSuffix(init, cutoff, n - 1);
        assert t[..n - 1] == init[|init| - (n - 1)..];
      }
    }
  }

  /** Cutting the history to 900 updates first only caps the length of the in-window suffix. */
  lemma AveragedSuffix(history: seq<PowerSample>, window: int)
    ensures var k := SuffixLength(history, LastTs(history) - window);
            Averaged(history, window) == LastUpdates(history[|history| - k..], 900)
  {
    hide SuffixLength;
    if |history| > MAX_WINDOW {
      LongHistory(history, LastTs(history) - window);
    }
  }

  lemma LongHistory(history: seq<PowerSample>, cutoff: int)
    requires |history| > MAX_WINDOW
    ensures var recent, k := history[|history| - MAX_WINDOW..], SuffixLength(history, cutoff);
            recent[|recent| - SuffixLength(recent, cutoff)..] == LastUpdates(history[|history| - k..], MAX_WINDOW)
  {
    hide SuffixLength;
    var n, k := |history|, SuffixLength(history, cutoff);
    SuffixOfSuffix(history, cutoff, MAX_WINDOW);
    if k <= MAX_WINDOW {
      DropDrop(history, n - MAX_WINDOW, MAX_WINDOW - k);
    } else {
      DropDrop(history, n - k, k - MAX_WINDOW);
    }
  }

  lemma DropDrop<T>(s: seq<T>, a: nat, b: nat)
    requires a + b <= |s|
    ensures s[a..][b..] == s[a + b..]
  {
  }

  /**
   For sorted timestamps the averaged samples are all the in-window samples of the whole history
   exactly when no more than 900 of them exist; otherwise they are the newest 900.
   */
  lemma AveragedIsWindow(history: seq<PowerSample>, window: int)
    requires NonDecreasing(history)
    ensures var all := InWindow(history, LastTs(history) - window);
            && Averaged(history, window) == LastUpdates(all, 900)
            && (Averaged(history, window) == all <==> |all| <= 900)
  {
    hide InWindow, Averaged, SuffixLength;
    InWindowOfSorted(history, LastTs(history) - window);
    AveragedSuffix(history, window);
  }

  lemma {:induction false} SpreadOut(history: seq<PowerSample>, i: nat, j: nat)
    requires StrictlyIncreasing(history) && i <= j < |history|
    ensures history[j].ts - history[i].ts >= j - i
  {
    if i < j {
      SpreadOut(history, i, j - 1);
    }
  }

  /** With strictly increasing timestamps a window of at most 899 seconds never outgrows the buffer. */
  lemma AverageOverWholeHistory(history: seq<PowerSample>, window: int)
    requires StrictlyIncreasing(history) && 0 <= window <= 899
    ensures Mean(Averaged(history, window)) == Mean(InWindow(history, LastTs(history) - window))
    ensures history != [] ==> Averaged(history, window) != []
  {
    var cutoff := LastTs(history) - window;
    var n := SuffixLength(history, cutoff);
    hide InWindow, Averaged, SuffixLength, Mean;
    InWindowOfSorted(history, cutoff);
    AveragedIsWindow(history, window);
    if n > 0 {
      SpreadOut(history, |history| - n, |history| - 1);
    }
  }

  // Energy.

  /** The energy that one update adds, in watt hours. */
  function Increment(lastTs: int, s: PowerSample): real {
    if lastTs > 0 && s.ts > lastTs && s.ts - lastTs <= 10
    then s.watts * ((s.ts - lastTs) as real / 3600.0) else 0.0
  }

  datatype Op = Update(sample: PowerSample) | Reset

  /** The counter and the last timestamp after a run, and what the counter read just before each reset. */
  datatype Meter = Meter(energy: real, lastTs: int, readings: seq<real>)

  function Step(m: Meter, op: Op): Meter {
    match op
    case Update(s) => m.(energy := m.energy + Increment(m.lastTs, s), lastTs := s.ts)
    case Reset => m.(energy := 0.0, readings := m.readings + [m.energy])
  }

  function Run(ops: seq<Op>): Meter {
    if ops == [] then Meter(0.0, 0, []) else Step(Run(ops[..|ops| - 1]), ops[|ops| - 1])
  }

  function Updates(ops: seq<Op>): seq<PowerSample> {
    if ops == [] then []
    else
      var last := ops[|ops| - 1];
      Updates(ops[..|ops| - 1]) + (if last.Update? then [last.sample] else [])
  }

  function Total(readings: seq<real>): real {
    if readings == [] then 0.0 else Total(readings[..|readings| - 1]) + readings[|readings| - 1]
  }

  /** The energy between consecutive updates, summed; gaps above ten seconds count nothing. */
  function EnergyOf(history: seq<PowerSample>): real {
    if |history| < 2 then 0.0
    else EnergyOf(history[..|history| - 1]) + Increment(history[|history| - 2].ts, history[|history| - 1])
  }

  /**
   Wherever the counter is reset, the readings taken at the resets plus the final reading are the
   energy of the update history, which does not mention resets at all.
   */
  lemma {:induction false} EnergyConserved(ops: seq<Op>)
    ensures Total(Run(ops).readings) + Run(ops).energy == EnergyOf(Updates(ops))
    ensures Run(ops).lastTs == LastTs(Updates(ops))
  {
    if ops == [] {
    } else {
      var init, last := ops[..|ops| - 1], ops[|ops| - 1];
      EnergyConserved(init);
      var m, us := Run(init), Updates(init);
      match last
      case Update(s) =>
        assert (us + [s])[..|us|] == us;
      case Reset =>
        var readings := m.readings + [m.energy];
        assert readings[..|readings| - 1] == m.readings;
        assert us + [] == us;
    }
  }

  /** The energy of a constant draw. */
  function ConstantDraw(watts: real, seconds: int): real {
    watts * (seconds as real / 3600.0)
  }

  /** A bounded draw over a sorted history uses at most the power bound for the elapsed time. */
  lemma {:induction false} EnergyBounded(history: seq<PowerSample>, bound: real)
    requires history != [] && NonDecreasing(history)
    requires forall i :: 0 <= i < |history| ==> 0.0 <= history[i].watts <= bound
    ensures 0.0 <= EnergyOf(history) <= ConstantDraw(bound, LastTs(history) - history[0].ts)
  {
    if |history| == 1 {
    } else {
      var init, last := history[..|history| - 1], history[|history| - 1];
      EnergyBounded(init, bound);
      IncrementBounded(LastTs(init), last, bound);
      Distribute(bound, LastTs(init) - init[0].ts, last.ts - LastTs(init));
      hide Increment, ConstantDraw;
      assert EnergyOf(history) == EnergyOf(init) + Increment(LastTs(init), last);
    }
  }

  lemma IncrementBounded(lastTs: int, s: PowerSample, bound: real)
    requires lastTs <= s.ts && 0.0 <= s.watts <= bound
    ensures 0.0 <= Increment(lastTs, s) <= ConstantDraw(bound, s.ts - lastTs)
  {
    var h := (s.ts - lastTs) as real / 3600.0;
    assert h >= 0.0;
    MulMonotone(s.watts, bound, h);
  }

  lemma MulMonotone(x: real, y: real, h: real)
    requires 0.0 <= x <= y && h >= 0.0
    ensures 0.0 <= x * h <= y * h
  {
  }

  lemma IncrementIs(lastTs: int, s: PowerSample)
    ensures if lastTs > 0 && 1 <= s.ts - lastTs <= 10
            then 3600.0 * Increment(lastTs, s) == s.watts * ((s.ts - lastTs) as real)
            else Increment(lastTs, s) == 0.0
  {
  }

  /** What an update adds after any run: nothing unless the last timestamp is positive and 1 to 10 seconds back. */
  lemma UpdateAdds(ops: seq<Op>, s: PowerSample)
    ensures var us, before, after := Updates(ops), Run(ops).energy, Run(ops + [Update(s)]).energy;
            if us != [] && us[|us| - 1].ts > 0 && 1 <= s.ts - us[|us| - 1].ts <= 10
            then 3600.0 * (after - before) == s.watts * ((s.ts - us[|us| - 1].ts) as real)
            else after == before
  {
    hide Increment, Updates, Run;
    EnergyConserved(ops);
    RunLast(ops, Update(s));
    IncrementIs(LastTs(Updates(ops)), s);
    var added := Increment(LastTs(Updates(ops)), s);
    assert Run(ops + [Update(s)]).energy - Run(ops).energy == added;
  }

  lemma RunLast(ops: seq<Op>, op: Op)
    ensures Run(ops + [op]) == Step(Run(ops), op)
  {
    assert (ops + [op])[..|ops|] == ops;
  }

  /** Every timestamp is one to ten seconds after the one before. */
  ghost predicate Gapless(history: seq<PowerSample>) {
    forall i :: 0 < i < |history| ==> 1 <= history[i].ts - history[i - 1].ts <= 10
  }

  ghost predicate Constant(history: seq<PowerSample>, watts: real) {
    forall i :: 0 <= i < |history| ==> history[i].watts == watts
  }

  lemma {:induction false} ConstantDrawCounted(history: seq<PowerSample>, watts: real)
    requires history != [] && history[0].ts > 0 && Gapless(history) && Constant(history, watts)
    ensures EnergyOf(history) == ConstantDraw(watts, LastTs(history) - history[0].ts) && LastTs(history) > 0
  {
    hide ConstantDraw, Increment;
    DrawInHours(watts, 0);
    if |history| > 1 {
      var init, last := history[..|history| - 1], history[|history| - 1];
      assert forall i :: 0 <= i < |init| ==> init[i] == history[i];
      ConstantDrawCounted(init, watts);
      IncrementOfDraw(LastTs(init), last);
      Distribute(watts, LastTs(init) - init[0].ts, last.ts - LastTs(init));
      assert EnergyOf(history) == EnergyOf(init) + Increment(LastTs(init), last);
    }
  }

  lemma IncrementOfDraw(lastTs: int, s: PowerSample)
    requires lastTs > 0 && 1 <= s.ts - lastTs <= 10
    ensures Increment(lastTs, s) == ConstantDraw(s.watts, s.ts - lastTs)
  {
  }

  lemma DrawInHours(watts: real, seconds: int)
    ensures 3600.0 * ConstantDraw(watts, seconds) == watts * (seconds as real)
    ensures ConstantDraw(watts, 0) == 0.0
  {
  }

  /** Without gaps a constant draw is counted exactly: 3600 times the watt hours are the watts times the seconds. */
  lemma ConstantDrawIsExact(history: seq<PowerSample>, watts: real)
    requires history != [] && history[0].ts > 0 && Gapless(history) && Constant(history, watts)
    ensures 3600.0 * EnergyOf(history) == watts * ((history[|history| - 1].ts - history[0].ts) as real)
  {
    hide ConstantDraw, EnergyOf;
    ConstantDrawCounted(history, watts);
    DrawInHours(watts, history[|history| - 1].ts - history[0].ts);
  }

  lemma Distribute(bound: real, a: int, b: int)
    ensures ConstantDraw(bound, a + b) == ConstantDraw(bound, a) + ConstantDraw(bound, b)
  {
  }
}

/** The pipeline of src/metrics/power_pipeline.cpp. */
module Pipeline {
  import opened Averages
  import opened Types
  import opened Masks
  import opened PowerSpec

  function NextHead(head: nat): nat {
    (head + 1) % MAX_WINDOW
  }

  /** The index of the `i`-th newest sample, with one lap added before the remainder. */
  function BackIndex(head: nat, i: nat): nat
    requires i < MAX_WINDOW
  {
    (head - 1 - i + MAX_WINDOW) % MAX_WINDOW
  }

  lemma HeadMovesOn(n: nat)
    ensures NextHead(Slot(n, MAX_WINDOW)) == Slot(n + 1, MAX_WINDOW)
  {
  }

  lemma BackIndexSlot(n: nat, i: nat)
    requires i < n && i < MAX_WINDOW
    ensures BackIndex(Slot(n, MAX_WINDOW), i) == Slot(n - 1 - i, MAX_WINDOW)
  {
  }

  lemma TraceStep(trace: seq<Op>, op: Op)
    ensures Updates(trace + [op]) == Updates(trace) + (if op.Update? then [op.sample] else [])
    ensures Run(trace + [op]) == Step(Run(trace), op)
  {
    assert (trace + [op])[..|trace|] == trace;
  }

  lemma EmptyAverage(window: int)
    ensures Sum([]) == 0.0 && Mean(Averaged([], window)) == 0.0
  {
  }

  lemma RecentLength(history: seq<PowerSample>)
    ensures var recent := LastUpdates(history, MAX_WINDOW);
            && |recent| == (if |history| < MAX_WINDOW then |history| else MAX_WINDOW)
            && forall i :: 0 <= i < |recent| ==> recent[i] == history[|history| - |recent| + i]
  {
  }

  lemma MeanOfSuffix(history: seq<PowerSample>, window: int, n: nat, sum: real)
    requires var recent := LastUpdates(history, MAX_WINDOW);
             n == SuffixLength(recent, LastTs(history) - window) && sum == Sum(recent[|recent| - n..])
    ensures Average(sum, n) == Mean(Averaged(history, window))
  {
  }

  class PowerPipeline {
    var currentWatts: real
    var currentQuality: Quality
    var energyTodayWh: real
    const window: array<PowerSample>
    var windowHead: nat
    var windowCount: nat
    var lastTs: int
    ghost var trace: seq<Op>
    ghost var history: seq<PowerSample>

    /** The fields are the outcome of the calls in `trace`; `history` is the updates among them. */
    ghost predicate Valid()
      reads this, window
    {
      && history == Updates(trace) && energyTodayWh == Run(trace).energy && lastTs == Run(trace).lastTs
      && window.Length == MAX_WINDOW
      && windowHead == Slot(|history|, MAX_WINDOW)
      && windowCount == (if |history| < MAX_WINDOW then |history| else MAX_WINDOW)
      && lastTs == LastTs(history)
      && forall j :: 0 <= j < |history| && |history| - MAX_WINDOW <= j ==> window[Slot(j, MAX_WINDOW)] == history[j]
    }

    constructor ()
      ensures Valid() && fresh(window) && trace == []
      ensures energyTodayWh == 0.0 && currentWatts == 0.0 && currentQuality == Unknown
    {
      currentWatts, currentQuality, energyTodayWh := 0.0, Unknown, 0.0;
      window := new PowerSample[MAX_WINDOW](i => PowerSample(0.0, 0));
      windowHead, windowCount, lastTs := 0, 0, 0;
      trace, history := [], [];
    }

    /** The energy branch of update; gaps above ten seconds are dropped. */
    method AddEnergy(watts: real, ts: int)
      modifies this`energyTodayWh
      ensures energyTodayWh == old(energyTodayWh) + Increment(lastTs, PowerSample(watts, ts))
    {
      if lastTs > 0 && ts > lastTs {
        var deltaS := (ts - lastTs) as real;
        if deltaS <= 10.0 {
          var wh := watts * (deltaS / 3600.0);
          energyTodayWh := energyTodayWh + wh;
        }
      }
    }

    method Update(watts: real, quality: Quality, ts: int)
      requires Valid()
      modifies this, window
      ensures Valid() && trace == old(trace) + [PowerSpec.Update(PowerSample(watts, ts))]
      ensures currentWatts == watts && currentQuality == quality
    {
      hide Slot, NextHead, Increment, Run, Updates;
      currentWatts := watts;
      currentQuality := quality;
      AddEnergy(watts, ts);
      lastTs := ts;
      window[windowHead] := PowerSample(watts, ts);
      HeadMovesOn(|history|);
      windowHead := NextHead(windowHead);
      if windowCount < MAX_WINDOW { windowCount := windowCount + 1; }
      forall j | 0 <= j < |history| && |history| - MAX_WINDOW < j
        ensures Slot(j, MAX_WINDOW) != Slot(|history|, MAX_WINDOW)
      {
        SlotsDiffer(|history|, j, MAX_WINDOW);
      }
      history := history + [PowerSample(watts, ts)];
      TraceStep(trace, PowerSpec.Update(PowerSample(watts, ts)));
      trace := trace + [PowerSpec.Update(PowerSample(watts, ts))];
    }

    /** The window entry that the averaging loop reads in its `i`-th round. */
    method NthNewest(i: nat) returns (sample: PowerSample)
      requires Valid() && i < windowCount
      ensures sample == history[|history| - 1 - i]
    {
      hide Slot, BackIndex, Run, Updates;
      BackIndexSlot(|history|, i);
      sample := window[BackIndex(windowHead, i)];
    }

    method AvgWatts(windowSeconds: int) returns (avg: real)
      requires Valid()
      ensures avg == Mean(Averaged(history, windowSeconds))
    {
      hide Slot, Average, Sum, Mean, Averaged, SuffixLength, LastUpdates, Run, Updates;
      RecentLength(history);
      EmptyAverage(windowSeconds);
      if windowCount == 0 {
        return 0.0;
      }
      var cutoff := lastTs - windowSeconds;
      ghost var recent := LastUpdates(history, MAX_WINDOW);
      var sum, count := 0.0, 0;
      var i := 0;
      assert recent[|recent| - i..] == [];
      while i < windowCount
        invariant 0 <= i <= windowCount && count == i
        invariant sum == Sum(recent[|recent| - i..])
        invariant forall j :: |recent| - i <= j < |recent| ==> recent[j].ts >= cutoff
      {
        var sample := NthNewest(i);
        ghost var at := |recent| - 1 - i;
        assert sample == recent[at];
        if sample.ts < cutoff {
          break;
        }
        sum := sum + sample.watts;
        SumFromFront(recent[at..]);
        assert recent[at..][0] == recent[at] && recent[at..][1..] == recent[at + 1..];
        count := count + 1;
        i := i + 1;
      }
      SuffixLengthUnique(recent, cutoff, i);
      MeanOfSuffix(history, windowSeconds, i, sum);
      avg := Average(sum, count);
    }

    method ResetDaily()
      requires Valid()
      modifies this`energyTodayWh, this`trace
      ensures Valid() && trace == old(trace) + [Reset]
    {
      TraceStep(trace, Reset);
      energyTodayWh := 0.0;
      trace := trace + [Reset];
    }
  }
}
