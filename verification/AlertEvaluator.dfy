/**
 One threshold of one metric: sustained counting and cooldown over whole runs of checks, whose settings
 may change from check to check.
 */
module AlertSpec {

  datatype AlertState = AlertState(violationCount: nat, lastAlertTs: int)

  const INITIAL_STATE := AlertState(0, 0)

  /** One check: whether the threshold was violated, the clock reading, and the settings at that time. */
  datatype Check = Check(violated: bool, now: int, sustained: int, cooldown: int)

  /** The state after a check, and whether the check raised an alert. */
  function Step(st: AlertState, c: Check): (AlertState, bool) {
    if !c.violated then (st.(violationCount := 0), false)
    else
      var counted := st.(violationCount := st.violationCount + 1);
      if counted.violationCount < c.sustained then (counted, false)
      else if st.lastAlertTs > 0 && c.now - st.lastAlertTs < c.cooldown then (counted, false)
      else (AlertState(0, c.now), true)
  }

  function Run(checks: seq<Check>): (r: (AlertState, seq<bool>))
    ensures |r.1| == |checks|
  {
    if checks == [] then (INITIAL_STATE, [])
    else
      var (st, fired) := Run(checks[..|checks| - 1]);
      var (st', f) := Step(st, checks[|checks| - 1]);
      (st', fired + [f])
  }

  function Fired(checks: seq<Check>): (fired: seq<bool>)
    ensures |fired| == |checks|
  {
    Run(checks).1
  }

  /** A non-positive setting acts like 1: a check has to be violated to alert at all. */
  function Needed(sustained: int): nat {
    if sustained < 1 then 1 else sustained
  }

  /** The last `n` checks up to `i` were all violated and none before `i` raised an alert. */
  ghost predicate Sustained(checks: seq<Check>, fired: seq<bool>, i: nat, n: nat)
    requires i < |checks| == |fired|
  {
    n <= i + 1 && forall j :: i - n < j <= i ==> checks[j].violated && (j < i ==> !fired[j])
  }

  /** `j` is the latest alert before check `i`. */
  ghost predicate LatestAlert(fired: seq<bool>, j: nat, i: nat)
    requires i <= |fired|
  {
    j < i && fired[j] && forall k :: j < k < i ==> !fired[k]
  }

  /** There is no earlier alert, or its clock reading was not positive, or the cooldown now set has passed since. */
  ghost predicate CooledDown(checks: seq<Check>, fired: seq<bool>, i: nat)
    requires i < |checks| == |fired|
  {
    forall j: nat :: LatestAlert(fired, j, i) ==>
      checks[j].now <= 0 || checks[i].now - checks[j].now >= checks[i].cooldown
  }

  /** What the two fields mean, in terms of the checks made so far. */
  ghost predicate Explains(st: AlertState, checks: seq<Check>, fired: seq<bool>)
    requires |checks| == |fired|
  {
    var n, c := |checks|, st.violationCount;
    && c <= n
    && (forall j :: n - c <= j < n ==> checks[j].violated && !fired[j])
    && (c < n ==> !checks[n - 1 - c].violated || fired[n - 1 - c])
    && ((exists j: nat :: LatestAlert(fired, j, n) && st.lastAlertTs == checks[j].now)
        || (st.lastAlertTs == 0 && forall j :: 0 <= j < n ==> !fired[j]))
  }

  /** Whether check `i` alerts, decided from the checks and the earlier alerts alone. */
  ghost predicate ShouldFire(checks: seq<Check>, fired: seq<bool>, i: nat)
    requires i < |checks| == |fired|
  {
    Sustained(checks, fired, i, Needed(checks[i].sustained)) && CooledDown(checks, fired, i)
  }

  lemma LatestAlertUnique(fired: seq<bool>, j: nat, k: nat, i: nat)
    requires i <= |fired| && LatestAlert(fired, j, i) && LatestAlert(fired, k, i)
    ensures j == k
  {
  }

  lemma FiredPrefix(checks: seq<Check>)
    requires checks != []
    ensures Fired(checks)[..|checks| - 1] == Fired(checks[..|checks| - 1])
  {
  }

  lemma LatestAlertExtended(fired: seq<bool>, f: bool, j: nat)
    ensures LatestAlert(fired + [f], j, |fired|) <==> LatestAlert(fired, j, |fired|)
    ensures LatestAlert(fired + [f], j, |fired| + 1) <==> if f then j == |fired| else LatestAlert(fired, j, |fired|)
  {
    var g, n := fired + [f], |fired|;
    assert forall k :: 0 <= k < n ==> g[k] == fired[k];
    if f && j < n {
      assert g[n];
    }
  }

  /** The counter reaches `n` with this check exactly when the last `n` checks are sustained. */
  lemma CountIsSustained(st: AlertState, checks: seq<Check>, fired: seq<bool>, c: Check, f: bool, n: nat)
    requires |checks| == |fired| && Explains(st, checks, fired) && n >= 1
    ensures Sustained(checks + [c], fired + [f], |checks|, n) <==> c.violated && n <= st.violationCount + 1
  {
    var cs, fs, m := checks + [c], fired + [f], |checks|;
    var k := m - 1 - st.violationCount;
    assert k >= 0 ==> cs[k] == checks[k] && fs[k] == fired[k];
    assert Sustained(cs, fs, m, n) ==> cs[m].violated;
  }

  lemma CooldownKnown(st: AlertState, checks: seq<Check>, fired: seq<bool>, c: Check, f: bool)
    requires |checks| == |fired| && Explains(st, checks, fired)
    ensures CooledDown(checks + [c], fired + [f], |checks|)
            <==> st.lastAlertTs <= 0 || c.now - st.lastAlertTs >= c.cooldown
  {
    var cs, fs, n := checks + [c], fired + [f], |checks|;
    forall j: nat
      ensures LatestAlert(fs, j, n) <==> LatestAlert(fired, j, n)
    {
      LatestAlertExtended(fired, f, j);
    }
    if j: nat :| LatestAlert(fired, j, n) && st.lastAlertTs == checks[j].now {
      assert LatestAlert(fs, j, n) && cs[j] == checks[j];
      forall k: nat | LatestAlert(fs, k, n) ensures k == j {
        LatestAlertUnique(fired, j, k, n);
      }
    } else {
      assert forall j :: 0 <= j < n ==> !fired[j];
    }
  }

  lemma AlertTimeExplained(st: AlertState, checks: seq<Check>, fired: seq<bool>, c: Check, f: bool)
    requires |checks| == |fired| && Explains(st, checks, fired)
    ensures var last, n := if f then c.now else st.lastAlertTs, |checks| + 1;
            (exists j: nat :: LatestAlert(fired + [f], j, n) && last == (checks + [c])[j].now)
            || (last == 0 && forall j :: 0 <= j < n ==> !(fired + [f])[j])
  {
    var cs, fs, n := checks + [c], fired + [f], |checks|;
    if f {
      LatestAlertExtended(fired, f, n);
      assert cs[n].now == c.now;
    } else if j: nat :| LatestAlert(fired, j, n) && st.lastAlertTs == checks[j].now {
      LatestAlertExtended(fired, f, j);
      assert cs[j].now == checks[j].now;
    }
  }

  lemma StepExplained(st: AlertState, checks: seq<Check>, fired: seq<bool>, c: Check)
    requires |checks| == |fired| && Explains(st, checks, fired)
    ensures var (st', f) := Step(st, c);
            && Explains(st', checks + [c], fired + [f])
            && (f <==> ShouldFire(checks + [c], fired + [f], |checks|))
  {
    var (st', f) := Step(st, c);
    CountIsSustained(st, checks, fired, c, f, Needed(c.sustained));
    CooldownKnown(st, checks, fired, c, f);
    AlertTimeExplained(st, checks, fired, c, f);
  }

  lemma {:induction false} RunExplained(checks: seq<Check>)
    ensures var (st, fired) := Run(checks);
            Explains(st, checks, fired)
  {
    if checks == [] {
    } else {
      var init, last := checks[..|checks| - 1], checks[|checks| - 1];
      RunExplained(init);
      var (st, fired) := Run(init);
      StepExplained(st, init, fired, last);
      assert init + [last] == checks;
    }
  }

  /** ShouldFire looks only at checks up to `i` and at alerts before `i`. */
  lemma ShouldFireLocal(checks: seq<Check>, fired: seq<bool>, i: nat, m: nat)
    requires i < m <= |checks| == |fired|
    ensures ShouldFire(checks, fired, i)
            <==> ShouldFire(checks[..m], fired[..m], i)
  {
    var cs, fs := checks[..m], fired[..m];
    assert forall j :: 0 <= j < m ==> cs[j] == checks[j] && fs[j] == fired[j];
    assert forall j: nat :: LatestAlert(fs, j, i) <==> LatestAlert(fired, j, i);
  }

  /**
   Exact firing over any run: check `i` raises an alert if and only if enough checks in a row up to
   it were violations without an alert in between, and the cooldown since the latest earlier alert
   has passed (or there is none, or its clock reading was not positive).
   */
  lemma {:induction false} ExactFiring(checks: seq<Check>, i: nat)
    requires i < |checks|
    ensures var fired := Fired(checks);
            fired[i] <==> ShouldFire(checks, fired, i)
  {
    var fired := Fired(checks);
    var init, n := checks[..|checks| - 1], |checks| - 1;
    FiredPrefix(checks);
    if i < n {
      ExactFiring(init, i);
      ShouldFireLocal(checks, fired, i, n);
    } else {
      RunExplained(init);
      var (st, before) := Run(init);
      StepExplained(st, init, before, checks[n]);
      assert init + [checks[n]] == checks;
    }
  }

  function ViolationCount(checks: seq<Check>): nat {
    if checks == [] then 0
    else ViolationCount(checks[..|checks| - 1]) + (if checks[|checks| - 1].violated then 1 else 0)
  }

  /** The clock readings of the alerts, in order. */
  function AlertTimes(checks: seq<Check>, fired: seq<bool>): (times: seq<int>)
    requires |checks| == |fired|
  {
    if checks == [] then []
    else
      var n := |checks| - 1;
      AlertTimes(checks[..n], fired[..n]) + (if fired[n] then [checks[n].now] else [])
  }

  lemma StepBudget(st: AlertState, c: Check, needed: nat)
    requires needed <= Needed(c.sustained)
    ensures var (st', f) := Step(st, c);
            st'.violationCount + (if f then needed else 0) <= st.violationCount + (if c.violated then 1 else 0)
  {
  }

  lemma OneMore(n: nat, s: nat)
    ensures (n + 1) * s == n * s + s
  {
  }

  /** Every alert uses up its own sustained violations, so alerts are never more frequent than that. */
  lemma {:induction false} AlertsNeedViolations(checks: seq<Check>, needed: nat)
    requires forall i :: 0 <= i < |checks| ==> needed <= Needed(checks[i].sustained)
    ensures var (st, fired) := Run(checks);
            |AlertTimes(checks, fired)| * needed + st.violationCount <= ViolationCount(checks)
  {
    hide Step, Needed;
    if checks == [] {
    } else {
      var init, last := checks[..|checks| - 1], checks[|checks| - 1];
      AlertsNeedViolations(init, needed);
      FiredPrefix(checks);
      StepBudget(Run(init).0, last, needed);
      OneMore(|AlertTimes(init, Fired(init))|, needed);
    }
  }

  ghost predicate Spaced(times: seq<int>, cooldown: int) {
    forall i :: 0 < i < |times| ==> times[i - 1] <= 0 || times[i] - times[i - 1] >= cooldown
  }

  lemma StepSpacing(st: AlertState, c: Check)
    ensures var (st', f) := Step(st, c);
            && st'.lastAlertTs == (if f then c.now else st.lastAlertTs)
            && (f ==> st.lastAlertTs <= 0 || c.now - st.lastAlertTs >= c.cooldown)
  {
  }

  /** Cooldown over whole runs, for arbitrary clock readings; `cooldown` bounds the settings from below. */
  lemma {:induction false} AlertsAreSpaced(checks: seq<Check>, cooldown: int)
    requires forall i :: 0 <= i < |checks| ==> cooldown <= checks[i].cooldown
    ensures var (st, fired) := Run(checks);
            var times := AlertTimes(checks, fired);
            Spaced(times, cooldown) && st.lastAlertTs == (if times == [] then 0 else times[|times| - 1])
  {
    hide Spaced, Step;
    SpacedExtended([], 0, cooldown);
    if checks == [] {
    } else {
      var init, last := checks[..|checks| - 1], checks[|checks| - 1];
      AlertsAreSpaced(init, cooldown);
      FiredPrefix(checks);
      StepSpacing(Run(init).0, last);
      var before := AlertTimes(init, Fired(init));
      SpacedExtended(before, last.now, cooldown);
      assert before + [] == before;
    }
  }

  lemma SpacedExtended(times: seq<int>, now: int, cooldown: int)
    ensures Spaced([], cooldown)
    ensures Spaced(times, cooldown) && (times == [] || times[|times| - 1] <= 0 || now - times[|times| - 1] >= cooldown)
            ==> Spaced(times + [now], cooldown)
  {
  }

  function Span(alerts: nat, cooldown: int): int {
    (alerts - 1) * cooldown
  }

  lemma SpanExtended(alerts: nat, cooldown: int)
    ensures Span(alerts + 1, cooldown) == Span(alerts, cooldown) + cooldown && Span(1, cooldown) == 0
  {
  }

  lemma {:induction false} SpacedSpan(times: seq<int>, cooldown: int)
    requires times != [] && Spaced(times, cooldown) && forall i :: 0 <= i < |times| ==> times[i] > 0
    ensures times[|times| - 1] - times[0] >= Span(|times|, cooldown)
  {
    hide Span;
    SpanExtended(|times| - 1, cooldown);
    if |times| > 1 {
      SpacedSpan(times[..|times| - 1], cooldown);
    }
  }

  lemma {:induction false} AlertTimesAreReadings(checks: seq<Check>, fired: seq<bool>)
    requires |checks| == |fired| && forall i :: 0 <= i < |checks| ==> checks[i].now > 0
    ensures forall i :: 0 <= i < |AlertTimes(checks, fired)| ==> AlertTimes(checks, fired)[i] > 0
  {
    if checks != [] {
      var n := |checks| - 1;
      AlertTimesAreReadings(checks[..n], fired[..n]);
    }
  }

  /** With positive clock readings, even ones that go backwards, n alerts of a run span at least n - 1 cooldowns. */
  lemma AlertsSpan(checks: seq<Check>, cooldown: int)
    requires forall i :: 0 <= i < |checks| ==> checks[i].now > 0 && cooldown <= checks[i].cooldown
    ensures var times := AlertTimes(checks, Fired(checks));
            times != [] ==> times[|times| - 1] - times[0] >= Span(|times|, cooldown)
  {
    hide Spaced, Span;
    AlertsAreSpaced(checks, cooldown);
    AlertTimesAreReadings(checks, Fired(checks));
    if AlertTimes(checks, Fired(checks)) != [] {
      SpacedSpan(AlertTimes(checks, Fired(checks)), cooldown);
    }
  }

  /** A non-positive clock reading is stored like "no alert yet", and the next alert ignores the cooldown. */
  lemma NonPositiveClockSkipsCooldown()
    ensures Fired([Check(true, 0, 1, 1800), Check(true, 0, 1, 1800)]) == [true, true]
  {
    var c := Check(true, 0, 1, 1800);
    RunExtended([], c);
    RunExtended([c], c);
    assert [] + [c] == [c] && [c] + [c] == [c, c];
  }

  /** Without an alert before, the alert comes with the violation that completes the sustained count, not earlier. */
  lemma FirstAlert(checks: seq<Check>, n: nat)
    requires 1 <= n == |checks|
    requires forall i :: 0 <= i < n ==> checks[i].violated && checks[i].sustained == n
    ensures forall i :: 0 <= i < n ==> (Fired(checks)[i] <==> i == n - 1)
  {
    hide Run, Fired;
    var fired := Fired(checks);
    forall i: nat | i < n - 1 ensures !fired[i] {
      ExactFiring(checks, i);
    }
    ExactFiring(checks, n - 1);
  }

  /** A sustained setting of 1 or less asks for a single violation. */
  lemma SingleViolation(now: int, sustained: int, cooldown: int)
    ensures Fired([Check(true, now, sustained, cooldown)]) == [sustained <= 1]
  {
    RunExtended([], Check(true, now, sustained, cooldown));
    assert [] + [Check(true, now, sustained, cooldown)] == [Check(true, now, sustained, cooldown)];
  }

  /** A check that is not violated starts the count again: the next n - 1 checks raise no alert. */
  lemma CountRestarts(before: seq<Check>, good: Check, after: seq<Check>, i: nat)
    requires !good.violated && i < |after| && after[i].sustained > i + 1
    ensures var fired := Fired(before + [good] + after);
            !fired[|before|] && !fired[|before| + 1 + i]
  {
    hide Run, Fired, CooledDown;
    var checks, at := before + [good] + after, |before|;
    assert checks[at] == good && checks[at + 1 + i] == after[i];
    ExactFiring(checks, at);
    ExactFiring(checks, at + 1 + i);
  }

  /** After an alert at a positive time the next is due again exactly when the cooldown has passed. */
  lemma CooldownBoundary(t: int, t': int, cooldown: int)
    requires t > 0
    ensures Fired([Check(true, t, 1, cooldown), Check(true, t', 1, cooldown)]) == [true, t' - t >= cooldown]
  {
    var c, c' := Check(true, t, 1, cooldown), Check(true, t', 1, cooldown);
    RunExtended([], c);
    RunExtended([c], c');
    assert [] + [c] == [c] && [c] + [c'] == [c, c'];
  }

  lemma RunExtended(checks: seq<Check>, c: Check)
    ensures var (st, fired) := Run(checks);
            var (st', f) := Step(st, c);
            Run(checks + [c]) == (st', fired + [f])
  {
    assert (checks + [c])[..|checks|] == checks;
  }
}

/** The evaluator over all monitored metrics, and how it splits into one run of checks per metric. */
module EvaluatorSpec {
  import opened Types
  import opened AlertSpec

  datatype Thresholds = Thresholds(
    cpuHighPct: real, cpuSustainedMin: int, memHighPct: real, memSustainedMin: int,
    batteryLowPct: real, powerHighW: real, cooldownMinutes: int)

  datatype Event = Event(ts: int, severity: string, category: string)

  datatype Rule = Rule(threshold: real, above: bool, sustained: int, category: string)

  function CooldownSeconds(t: Thresholds): int {
    t.cooldownMinutes * 60
  }

  predicate Monitored(key: string) {
    key == "cpu.total_pct" || key == "mem.used_pct" || key == "battery.level_pct" || key == "power.current_w"
  }

  function CategoryOf(key: string): string
    requires Monitored(key)
  {
    if key == "cpu.total_pct" then "cpu_high"
    else if key == "mem.used_pct" then "mem_high"
    else if key == "battery.level_pct" then "battery_low"
    else "power_high"
  }

  /** The rule of a metric, whatever the sample. */
  function KeyRule(t: Thresholds, key: string): (r: Rule)
    requires Monitored(key)
    ensures r.category == CategoryOf(key)
  {
    if key == "cpu.total_pct" then Rule(t.cpuHighPct, true, t.cpuSustainedMin, CategoryOf(key))
    else if key == "mem.used_pct" then Rule(t.memHighPct, true, t.memSustainedMin, CategoryOf(key))
    else if key == "battery.level_pct" then Rule(t.batteryLowPct, false, 1, CategoryOf(key))
    else Rule(t.powerHighW, true, t.cpuSustainedMin, CategoryOf(key))
  }

  /** A power sample of unknown quality is skipped: it neither counts nor resets the count. */
  predicate Checked(s: MetricSample) {
    s.key != "power.current_w" || s.quality != Unknown
  }

  function Violates(rule: Rule, value: real): bool {
    if rule.above then value >= rule.threshold else value <= rule.threshold
  }

  /** A sample with the clock reading and the thresholds in force while it is evaluated. */
  datatype Observation = Observation(sample: MetricSample, now: int, thresholds: Thresholds)

  datatype Log = Log(state: map<string, AlertState>, events: seq<Event>)

  function StateOf(state: map<string, AlertState>, key: string): AlertState {
    if key in state then state[key] else INITIAL_STATE
  }

  function CheckOf(rule: Rule, value: real, now: int, cooldown: int): Check {
    Check(Violates(rule, value), now, rule.sustained, cooldown)
  }

  /** One call of check_threshold. */
  function CheckThreshold(log: Log, key: string, value: real, rule: Rule, cooldown: int, now: int): Log {
    var (st, fired) := Step(StateOf(log.state, key), CheckOf(rule, value, now, cooldown));
    Log(log.state[key := st], if fired then log.events + [Event(now, "warn", rule.category)] else log.events)
  }

  function Observe(log: Log, o: Observation): Log {
    if Monitored(o.sample.key) && Checked(o.sample) then
      CheckThreshold(log, o.sample.key, o.sample.value, KeyRule(o.thresholds, o.sample.key),
                     CooldownSeconds(o.thresholds), o.now)
    else log
  }

  function Process(log: Log, obs: seq<Observation>): Log {
    if obs == [] then log else Observe(Process(log, obs[..|obs| - 1]), obs[|obs| - 1])
  }

  lemma {:induction false} ProcessConcat(log: Log, a: seq<Observation>, b: seq<Observation>)
    ensures Process(log, a + b) == Process(Process(log, a), b)
  {
    if b == [] {
      assert a + b == a;
    } else {
      ProcessConcat(log, a, b[..|b| - 1]);
      assert (a + b)[..|a + b| - 1] == a + b[..|b| - 1];
    }
  }

  /** The check that an observation makes of its own metric. */
  function CheckBy(o: Observation): Check
    requires Monitored(o.sample.key)
  {
    CheckOf(KeyRule(o.thresholds, o.sample.key), o.sample.value, o.now, CooldownSeconds(o.thresholds))
  }

  /** The checks that a list of observations makes of one metric. */
  function ChecksOf(obs: seq<Observation>, key: string): seq<Check>
    requires Monitored(key)
  {
    if obs == [] then []
    else
      var o := obs[|obs| - 1];
      ChecksOf(obs[..|obs| - 1], key) + (if o.sample.key == key && Checked(o.sample) then [CheckBy(o)] else [])
  }

  function EventTimes(events: seq<Event>, category: string): seq<int> {
    if events == [] then []
    else
      var e := events[|events| - 1];
      EventTimes(events[..|events| - 1], category) + (if e.category == category then [e.ts] else [])
  }

  lemma EventTimesExtended(events: seq<Event>, e: Event, category: string)
    ensures EventTimes(events + [e], category)
            == EventTimes(events, category) + (if e.category == category then [e.ts] else [])
  {
    assert (events + [e])[..|events|] == events;
  }

  lemma CategoriesDiffer(a: string, b: string)
    requires Monitored(a) && Monitored(b)
    ensures CategoryOf(a) == CategoryOf(b) <==> a == b
  {
    assert "cpu_high"[0] == 'c' && "mem_high"[0] == 'm' && "battery_low"[0] == 'b' && "power_high"[0] == 'p';
  }

  lemma AlertTimesExtended(checks: seq<Check>, c: Check)
    ensures var f := Step(Run(checks).0, c).1;
            AlertTimes(checks + [c], Fired(checks + [c]))
            == AlertTimes(checks, Fired(checks)) + (if f then [c.now] else [])
  {
    RunExtended(checks, c);
    FiredPrefix(checks + [c]);
    assert (checks + [c])[..|checks|] == checks;
  }

  lemma AppendNothing<T>(s: seq<T>)
    ensures s + [] == s
  {
  }

  /** State and events of one metric are the outcome of its own checks. */
  ghost predicate OwnChecks(log: Log, obs: seq<Observation>, key: string)
    requires Monitored(key)
  {
    var (st, fired) := Run(ChecksOf(obs, key));
    StateOf(log.state, key) == st && EventTimes(log.events, CategoryOf(key)) == AlertTimes(ChecksOf(obs, key), fired)
  }

  /**
   Over any run of evaluations, whatever thresholds are set in between, the state and the alert events
   of a monitored metric are those of its own checks alone: metrics never influence each other.
   */
  lemma {:induction false} MetricsAreIndependent(obs: seq<Observation>, key: string)
    requires Monitored(key)
    ensures OwnChecks(Process(Log(map[], []), obs), obs, key)
  {
    hide Observe, Monitored;
    if obs == [] {
      EmptyRun();
    } else {
      hide OwnChecks;
      var init, o := obs[..|obs| - 1], obs[|obs| - 1];
      MetricsAreIndependent(init, key);
      assert init + [o] == obs;
      ObserveOne(Process(Log(map[], []), init), init, o, key);
    }
  }

  lemma EmptyRun()
    ensures Run([]) == (INITIAL_STATE, []) && AlertTimes([], []) == []
  {
  }

  /** One observation extends the checks of its own metric and leaves every other metric alone. */
  lemma ObserveOne(log: Log, init: seq<Observation>, o: Observation, key: string)
    requires Monitored(key) && OwnChecks(log, init, key)
    ensures OwnChecks(Observe(log, o), init + [o], key)
  {
    hide Run, Step, AlertTimes, Violates, Checked, EventTimes, KeyRule, CategoryOf, Monitored;
    var checks := ChecksOf(init, key);
    assert (init + [o])[..|init|] == init;
    AppendNothing(checks);
    AppendNothing(AlertTimes(checks, Fired(checks)));
    if Monitored(o.sample.key) && Checked(o.sample) {
      EventTimesExtended(log.events, Event(o.now, "warn", CategoryOf(o.sample.key)), CategoryOf(key));
      CategoriesDiffer(o.sample.key, key);
      AppendNothing(EventTimes(log.events, CategoryOf(key)));
      if o.sample.key == key {
        RunExtended(checks, CheckBy(o));
        AlertTimesExtended(checks, CheckBy(o));
      }
    }
  }
  // The check that one more observation makes, in its own terms.

  /** CPU load counts from its threshold upwards. */
  lemma CpuCheck(obs: seq<Observation>, o: Observation)
    ensures var t := o.thresholds;
            ChecksOf(obs + [o], "cpu.total_pct")
            == ChecksOf(obs, "cpu.total_pct")
               + if o.sample.key != "cpu.total_pct" then []
                 else [Check(o.sample.value >= t.cpuHighPct, o.now, t.cpuSustainedMin, 60 * t.cooldownMinutes)]
  {
    assert (obs + [o])[..|obs|] == obs;
    KeysDiffer();
  }

  /** Memory use counts from its own threshold upwards. */
  lemma MemoryCheck(obs: seq<Observation>, o: Observation)
    ensures var t := o.thresholds;
            ChecksOf(obs + [o], "mem.used_pct")
            == ChecksOf(obs, "mem.used_pct")
               + if o.sample.key != "mem.used_pct" then []
                 else [Check(o.sample.value >= t.memHighPct, o.now, t.memSustainedMin, 60 * t.cooldownMinutes)]
  {
    assert (obs + [o])[..|obs|] == obs;
    KeysDiffer();
  }

  /** The battery level counts from its threshold downwards, and at once. */
  lemma BatteryCheck(obs: seq<Observation>, o: Observation)
    ensures var t := o.thresholds;
            ChecksOf(obs + [o], "battery.level_pct")
            == ChecksOf(obs, "battery.level_pct")
               + if o.sample.key != "battery.level_pct" then []
                 else [Check(o.sample.value <= t.batteryLowPct, o.now, 1, 60 * t.cooldownMinutes)]
  {
    assert (obs + [o])[..|obs|] == obs;
    KeysDiffer();
  }

  /** Power counts from its threshold upwards, sustained as long as the CPU, unless its quality is unknown. */
  lemma PowerCheck(obs: seq<Observation>, o: Observation)
    ensures var t := o.thresholds;
            ChecksOf(obs + [o], "power.current_w")
            == ChecksOf(obs, "power.current_w")
               + if o.sample.key != "power.current_w" || o.sample.quality == Unknown then []
                 else [Check(o.sample.value >= t.powerHighW, o.now, t.cpuSustainedMin, 60 * t.cooldownMinutes)]
  {
    assert (obs + [o])[..|obs|] == obs;
    KeysDiffer();
  }

  lemma KeysDiffer()
    ensures "cpu.total_pct"[0] == 'c' && "mem.used_pct"[0] == 'm'
    ensures "battery.level_pct"[0] == 'b' && "power.current_w"[0] == 'p'
  {
  }

  /** Whether the last of these checks raises an alert. */
  predicate LastFires(checks: seq<Check>) {
    checks != [] && Fired(checks)[|checks| - 1]
  }

  /** What one more observation adds to the events of a run. */
  lemma NextEvent(obs: seq<Observation>, o: Observation)
    ensures var log, log' := Process(Log(map[], []), obs), Process(Log(map[], []), obs + [o]);
            && (o.sample.key == "cpu.total_pct" ==>
                  log'.events == log.events + (if LastFires(ChecksOf(obs + [o], "cpu.total_pct"))
                                               then [Event(o.now, "warn", "cpu_high")] else []))
            && (o.sample.key == "mem.used_pct" ==>
                  log'.events == log.events + (if LastFires(ChecksOf(obs + [o], "mem.used_pct"))
                                               then [Event(o.now, "warn", "mem_high")] else []))
            && (o.sample.key == "battery.level_pct" ==>
                  log'.events == log.events + (if LastFires(ChecksOf(obs + [o], "battery.level_pct"))
                                               then [Event(o.now, "warn", "battery_low")] else []))
            && (o.sample.key == "power.current_w" && o.sample.quality != Unknown ==>
                  log'.events == log.events + (if LastFires(ChecksOf(obs + [o], "power.current_w"))
                                               then [Event(o.now, "warn", "power_high")] else []))
            && (o.sample.key == "power.current_w" && o.sample.quality == Unknown ==> log' == log)
            && (o.sample.key !in ["cpu.total_pct", "mem.used_pct", "battery.level_pct", "power.current_w"] ==>
                  log' == log)
  {
    hide Process, LastFires, ChecksOf, Observe, KeyRule;
    ObservedLast(obs, o);
    KeysDiffer();
    if Monitored(o.sample.key) && Checked(o.sample) {
      CheckedEvent(obs, o);
    } else {
      Skipped(Process(Log(map[], []), obs), o);
    }
  }

  lemma ObservedLast(obs: seq<Observation>, o: Observation)
    ensures Process(Log(map[], []), obs + [o]) == Observe(Process(Log(map[], []), obs), o)
  {
    assert (obs + [o])[..|obs|] == obs;
  }

  lemma Skipped(log: Log, o: Observation)
    requires !Monitored(o.sample.key) || !Checked(o.sample)
    ensures Observe(log, o) == log
  {
  }

  lemma CheckedEvent(obs: seq<Observation>, o: Observation)
    requires Monitored(o.sample.key) && Checked(o.sample)
    ensures var log, key := Process(Log(map[], []), obs), o.sample.key;
            Observe(log, o).events
            == log.events
               + (if LastFires(ChecksOf(obs + [o], key)) then [Event(o.now, "warn", CategoryOf(key))] else [])
  {
    hide Process, Step, KeyRule, Run, Monitored, CheckOf, EventTimes, AlertTimes;
    var log, key := Process(Log(map[], []), obs), o.sample.key;
    var checks := ChecksOf(obs, key);
    MetricsAreIndependent(obs, key);
    assert (obs + [o])[..|obs|] == obs;
    RunExtended(checks, CheckBy(o));
    AppendNothing(log.events);
  }
}

/** The evaluator of src/metrics/alert_evaluator.cpp. */
module Evaluator {
  import opened Types
  import opened AlertSpec
  import opened EvaluatorSpec
  import RegistrySpec
  import Registry

  /** The snapshot under the given thresholds, with the clock reading taken at each position. */
  function Observed(snap: seq<MetricSample>, clock: nat -> int, t: Thresholds): (obs: seq<Observation>)
    ensures |obs| == |snap|
  {
    seq(|snap|, i requires 0 <= i < |snap| => Observation(snap[i], clock(i), t))
  }

  class AlertEvaluator {
    var thresholds: Thresholds
    var state: map<string, AlertState>
    var events: seq<Event>

    constructor (t: Thresholds)
      ensures thresholds == t && state == map[] && events == []
    {
      thresholds, state, events := t, map[], [];
    }

    method SetThresholds(t: Thresholds)
      modifies this`thresholds
      ensures thresholds == t
    {
      thresholds := t;
    }

    method CheckThreshold(key: string, value: real, threshold: real, above: bool, sustainedMinutes: int,
                          category: string, now: int)
      modifies this`state, this`events
      ensures Log(state, events)
              == EvaluatorSpec.CheckThreshold(old(Log(state, events)), key, value,
                                              Rule(threshold, above, sustainedMinutes, category),
                                              CooldownSeconds(thresholds), now)
    {
      ghost var before := state;
      // st stands for the source's reference into the map.
      var st := if key in state then state[key] else AlertState(0, 0);
      var violated := if above then value >= threshold else value <= threshold;
      if violated {
        st := st.(violationCount := st.violationCount + 1);
        state := state[key := st];
      } else {
        st := st.(violationCount := 0);
        state := state[key := st];
        return;
      }
      if st.violationCount < sustainedMinutes {
        return;
      }
      var cooldownS := thresholds.cooldownMinutes * 60;
      if st.lastAlertTs > 0 && now - st.lastAlertTs < cooldownS {
        return;
      }
      events := events + [Event(now, "warn", category)];
      st := st.(lastAlertTs := now);
      st := st.(violationCount := 0);
      state := state[key := st];
      assert state == before[key := st];
    }

    /** The body of the evaluation loop: which threshold applies to which metric. */
    method EvaluateSample(sample: MetricSample, now: int)
      modifies this`state, this`events
      ensures Log(state, events) == Observe(old(Log(state, events)), Observation(sample, now, thresholds))
    {
      hide EvaluatorSpec.CheckThreshold;
      if sample.key == "cpu.total_pct" {
        CheckThreshold(sample.key, sample.value, thresholds.cpuHighPct, true, thresholds.cpuSustainedMin,
                       "cpu_high", now);
      } else if sample.key == "mem.used_pct" {
        CheckThreshold(sample.key, sample.value, thresholds.memHighPct, true, thresholds.memSustainedMin,
                       "mem_high", now);
      } else if sample.key == "battery.level_pct" {
        CheckThreshold(sample.key, sample.value, thresholds.batteryLowPct, false, 1, "battery_low", now);
      } else if sample.key == "power.current_w" && sample.quality != Unknown {
        CheckThreshold(sample.key, sample.value, thresholds.powerHighW, true, thresholds.cpuSustainedMin,
                       "power_high", now);
      }
    }

    /** Evaluates every sample of the registry's snapshot, in the order the snapshot happens to have. */
    method Evaluate(registry: Registry.MetricRegistry, clock: nat -> int) returns (ghost snap: seq<MetricSample>)
      requires registry.Valid()
      modifies this`state, this`events
      ensures RegistrySpec.IsSnapshot(registry.view, snap)
      ensures Log(state, events) == Process(old(Log(state, events)), Observed(snap, clock, thresholds))
    {
      hide Observe, RegistrySpec.IsSnapshot;
      var samples := registry.Snapshot();
      snap := samples;
      ghost var obs, v := Observed(samples, clock, thresholds), registry.view;
      assert obs[..0] == [];
      for i := 0 to |samples|
        invariant Log(state, events) == Process(old(Log(state, events)), obs[..i])
        invariant registry.view == v
      {
        EvaluateSample(samples[i], clock(i));
        assert obs[..i + 1][..i] == obs[..i] && obs[..i + 1][i] == Observation(samples[i], clock(i), thresholds);
      }
      assert obs[..|samples|] == obs;
    }
  }
}
