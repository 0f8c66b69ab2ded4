/** What the registry stands for: for every registered key, all samples ever accepted for it. */
module RegistrySpec {
  import opened Wrappers
  import opened Types

  const LIVE_CAPACITY: nat := 2048

  datatype Channel = Channel(info: MetricInfo, samples: seq<MetricSample>)

  type View = map<string, Channel>

  function Register(v: View, info: MetricInfo): View {
    if info.key in v then v else v[info.key := Channel(info, [])]
  }

  function Push(v: View, s: MetricSample): View {
    if s.key in v then v[s.key := v[s.key].(samples := v[s.key].samples + [s])] else v
  }

  /** The sample that latest() and snapshot() report; a timestamp of 0 counts as "no sample yet". */
  function LatestOf(c: Channel): Option<MetricSample> {
    if c.samples == [] || c.samples[|c.samples| - 1].ts == 0 then None
    else Some(c.samples[|c.samples| - 1])
  }

  /** `snap` lists, in some order, the latest sample of every key that has one. */
  ghost predicate IsSnapshot(v: View, snap: seq<MetricSample>) {
    && (forall i :: 0 <= i < |snap| ==> snap[i].key in v && LatestOf(v[snap[i].key]) == Some(snap[i]))
    && (forall i, j :: 0 <= i < j < |snap| ==> snap[i].key != snap[j].key)
    && (forall k :: k in v && LatestOf(v[k]).Some? ==> exists i :: 0 <= i < |snap| && snap[i].key == k)
  }

  /** `infos` lists, in some order, the metadata of every registered key once. */
  ghost predicate IsInfoList(v: View, infos: seq<MetricInfo>) {
    && (forall i :: 0 <= i < |infos| ==> infos[i].key in v && v[infos[i].key].info == infos[i])
    && (forall i, j :: 0 <= i < j < |infos| ==> infos[i].key != infos[j].key)
    && (forall k :: k in v ==> exists i :: 0 <= i < |infos| && infos[i].key == k)
  }

  function Restrict(v: View, keys: set<string>): View {
    map k | k in v && k in keys :: v[k]
  }

  lemma RestrictEnds(v: View)
    ensures Restrict(v, v.Keys) == v && Restrict(v, {}) == map[]
    ensures IsSnapshot(map[], []) && IsInfoList(map[], [])
  {
  }

  lemma SnapshotStep(v: View, done: set<string>, k: string, snap: seq<MetricSample>)
    requires IsSnapshot(Restrict(v, done), snap) && k in v && k !in done
    requires LatestOf(v[k]).Some? ==> LatestOf(v[k]).value.key == k
    ensures IsSnapshot(Restrict(v, done + {k}), if LatestOf(v[k]).Some? then snap + [LatestOf(v[k]).value] else snap)
  {
    var w := Restrict(v, done + {k});
    var s := if LatestOf(v[k]).Some? then snap + [LatestOf(v[k]).value] else snap;
    forall x | x in w && LatestOf(w[x]).Some? ensures exists i :: 0 <= i < |s| && s[i].key == x {
      if x == k {
        assert s[|snap|].key == x;
      } else {
        assert x in Restrict(v, done);
        var i :| 0 <= i < |snap| && snap[i].key == x;
        assert s[i].key == x;
      }
    }
  }

  lemma InfoListStep(v: View, done: set<string>, k: string, infos: seq<MetricInfo>)
    requires IsInfoList(Restrict(v, done), infos) && k in v && k !in done && v[k].info.key == k
    ensures IsInfoList(Restrict(v, done + {k}), infos + [v[k].info])
  {
    var w, s := Restrict(v, done + {k}), infos + [v[k].info];
    forall x | x in w ensures exists i :: 0 <= i < |s| && s[i].key == x {
      if x == k {
        assert s[|infos|].key == x;
      } else {
        assert x in Restrict(v, done);
        var i :| 0 <= i < |infos| && infos[i].key == x;
        assert s[i].key == x;
      }
    }
  }

  datatype Op = RegisterOp(info: MetricInfo) | PushOp(sample: MetricSample)

  function Run(ops: seq<Op>): View {
    if ops == [] then map[]
    else
      var v := Run(ops[..|ops| - 1]);
      match ops[|ops| - 1]
      case RegisterOp(info) => Register(v, info)
      case PushOp(s) => Push(v, s)
  }

  predicate Registers(op: Op, key: string) {
    op.RegisterOp? && op.info.key == key
  }

  /** The position of the first registration of `key`; the length of the run when there is none. */
  function FirstRegistration(ops: seq<Op>, key: string): (n: nat)
    ensures n <= |ops| && (n < |ops| ==> Registers(ops[n], key))
    ensures forall i :: 0 <= i < n ==> !Registers(ops[i], key)
  {
    if ops == [] then 0
    else if Registers(ops[0], key) then 0
    else 1 + FirstRegistration(ops[1..], key)
  }

  /** The samples pushed for `key`, in order. */
  function PushesOf(ops: seq<Op>, key: string): seq<MetricSample> {
    if ops == [] then []
    else PushOf(ops[0], key) + PushesOf(ops[1..], key)
  }

  function PushOf(op: Op, key: string): seq<MetricSample> {
    if op.PushOp? && op.sample.key == key then [op.sample] else []
  }

  lemma {:induction false} PushesOfConcat(a: seq<Op>, b: seq<Op>, key: string)
    ensures PushesOf(a + b, key) == PushesOf(a, key) + PushesOf(b, key)
  {
    hide PushOf;
    if a == [] {
      assert a + b == b;
    } else {
      PushesOfConcat(a[1..], b, key);
      assert (a + b)[0] == a[0] && (a + b)[1..] == a[1..] + b;
      Associative(PushOf(a[0], key), PushesOf(a[1..], key), PushesOf(b, key));
    }
  }

  lemma Associative<T>(x: seq<T>, y: seq<T>, z: seq<T>)
    ensures x + (y + z) == (x + y) + z
  {
  }

  lemma FirstRegistrationOfPrefix(ops: seq<Op>, key: string)
    requires ops != []
    ensures var n, m := FirstRegistration(ops, key), FirstRegistration(ops[..|ops| - 1], key);
            m == if n < |ops| - 1 then n else |ops| - 1
  {
    hide FirstRegistration, Registers;
    var init := ops[..|ops| - 1];
    assert forall i :: 0 <= i < |init| ==> init[i] == ops[i];
  }

  lemma SuffixOfInit<T>(s: seq<T>, n: nat)
    requires n < |s|
    ensures s[n..] == s[..|s| - 1][n..] + [s[|s| - 1]]
  {
  }

  /**
   After any run of registrations and pushes a key is known exactly if it was registered, with the
   metadata of its first registration, and holds every sample pushed for it since then: neither a
   repeated registration nor activity on other keys loses or reorders anything.
   */
  lemma {:induction false} RunKeepsEverySample(ops: seq<Op>, key: string)
    ensures var n := FirstRegistration(ops, key);
            && (key in Run(ops) <==> n < |ops|)
            && (n < |ops| ==> Run(ops)[key] == Channel(ops[n].info, PushesOf(ops[n..], key)))
  {
    if ops == [] {
    } else {
      var init, last := ops[..|ops| - 1], ops[|ops| - 1];
      var n, m := FirstRegistration(ops, key), FirstRegistration(init, key);
      RunKeepsEverySample(init, key);
      FirstRegistrationOfPrefix(ops, key);
      if n < |ops| - 1 {
        SuffixOfInit(ops, n);
        PushesOfConcat(init[n..], [last], key);
        assert PushesOf([last], key) == PushOf(last, key);
      } else if n == |ops| - 1 {
        assert ops[n..] == [last];
        assert PushesOf([last], key) == [];
      }
    }
  }
}

/** The registry of src/core/metric_registry.cpp. */
module Registry {
  import opened Wrappers
  import opened Bytes
  import opened Types
  import opened Masks
  import opened Rings
  import opened RegistrySpec

  class Entry {
    const info: MetricInfo
    const buffer: RingBuffer<MetricSample>
    var lastSample: MetricSample

    ghost function Repr(): set<object> {
      {this, buffer, buffer.buffer}
    }

    ghost predicate Valid()
      reads Repr()
    {
      && buffer.Valid() && buffer.capacity == LIVE_CAPACITY && buffer.taken == 0
      && lastSample.key == info.key
      && lastSample == (if buffer.history == [] then MetricSample(info.key, 0.0, info.unit, Unknown, 0)
                        else buffer.history[|buffer.history| - 1])
    }

    ghost function Value(): Channel
      reads Repr()
    {
      Channel(info, buffer.history)
    }

    /** The entry is well-formed and stands for the channel of this key. */
    ghost predicate Holds(key: string, c: Channel)
      reads Repr()
    {
      Valid() && info.key == key && Value() == c
    }

    /** What the reading methods see of the channel. */
    lemma Reads(key: string, c: Channel)
      requires Holds(key, c)
      ensures info == c.info && info.key == key
      ensures LatestOf(c) == (if lastSample.ts == 0 then None else Some(lastSample)) && lastSample.key == key
    {
      hide RingBuffer.Valid;
    }

    constructor (info: MetricInfo)
      ensures Holds(info.key, Channel(info, [])) && fresh(Repr())
    {
      hide And, Wrap;
      LiveCapacityIsPowerOfTwo();
      this.info := info;
      buffer := new RingBuffer<MetricSample>(LIVE_CAPACITY);
      lastSample := MetricSample(info.key, 0.0, info.unit, Unknown, 0);
    }

    method Accept(sample: MetricSample, ghost c: Channel)
      requires Holds(sample.key, c)
      modifies Repr()
      ensures Holds(sample.key, c.(samples := c.samples + [sample]))
    {
      buffer.Push(sample);
      lastSample := sample;
    }
  }

  lemma LiveCapacityIsPowerOfTwo()
    ensures And(LIVE_CAPACITY, Wrap(LIVE_CAPACITY - 1)) == 0
  {
    assert Pow2(0) == 1 && Pow2(3) == 8;
    Pow2Of8(0);
    Pow2Add(8, 3);
    assert LIVE_CAPACITY == Pow2(11);
    PowerOfTwoTest(LIVE_CAPACITY);
    WrapSmall(LIVE_CAPACITY - 1);
  }

  /** No two entries share an object, and none is the registry itself. */
  ghost predicate Separate(entries: map<string, Entry>, owner: object, repr: set<object>) {
    && owner in repr
    && (forall k :: k in entries ==> entries[k].Repr() <= repr && owner !in entries[k].Repr())
    && (forall j, k :: j in entries && k in entries && j != k ==> entries[j].Repr() !! entries[k].Repr())
  }

  lemma SeparateExtended(entries: map<string, Entry>, owner: object, repr: set<object>, key: string, entry: Entry)
    requires Separate(entries, owner, repr) && entry.Repr() !! repr
    ensures Separate(entries[key := entry], owner, repr + entry.Repr())
  {
  }

  class MetricRegistry {
    var entries: map<string, Entry>
    ghost var view: View
    ghost var repr: set<object>

    ghost predicate Valid()
      reads this, repr
      ensures Valid() ==> this in repr
    {
      && Separate(entries, this, repr)
      && view.Keys == entries.Keys
      && (forall k :: k in entries ==> entries[k].Holds(k, view[k]))
    }

    constructor ()
      ensures Valid() && fresh(repr) && view == map[]
    {
      entries := map[];
      view := map[];
      repr := {this};
    }

    method RegisterMetric(info: MetricInfo)
      requires Valid()
      modifies this
      ensures Valid() && fresh(repr - old(repr))
      ensures view == Register(old(view), info)
    {
      hide Entry.Holds;
      if info.key in entries {
        return;
      }
      var entry := new Entry(info);
      SeparateExtended(entries, this, repr, info.key, entry);
      entries := entries[info.key := entry];
      view := Register(view, info);
      repr := repr + entry.Repr();
    }

    method PushSample(sample: MetricSample)
      requires Valid()
      modifies repr
      ensures Valid() && repr == old(repr)
      ensures view == Push(old(view), sample)
    {
      hide Entry.Holds;
      if sample.key !in entries {
        return;
      }
      var entry := entries[sample.key];
      entry.Accept(sample, view[sample.key]);
      view := Push(view, sample);
    }

    method Latest(key: string) returns (sample: Option<MetricSample>)
      requires Valid()
      ensures if key !in view || view[key].samples == [] then sample == None
              else
                var last := view[key].samples[|view[key].samples| - 1];
                sample == if last.ts == 0 then None else Some(last)
    {
      hide Entry.Holds;
      if key !in entries {
        return None;
      }
      entries[key].Reads(key, view[key]);
      if entries[key].lastSample.ts == 0 {
        return None;
      }
      return Some(entries[key].lastSample);
    }

    method AllMetrics() returns (infos: seq<MetricInfo>)
      requires Valid()
      ensures IsInfoList(view, infos)
    {
      hide IsInfoList, Restrict, Separate, Entry.Holds;
      RestrictEnds(view);
      infos := [];
      var todo := entries.Keys;
      assert view.Keys - todo == {};
      while todo != {}
        invariant Valid() && todo <= view.Keys
        invariant IsInfoList(Restrict(view, view.Keys - todo), infos)
        decreases todo
      {
        var k :| k in todo;
        entries[k].Reads(k, view[k]);
        InfoListStep(view, view.Keys - todo, k, infos);
        assert view.Keys - todo + {k} == view.Keys - (todo - {k});
        infos := infos + [entries[k].info];
        todo := todo - {k};
      }
      assert view.Keys - todo == view.Keys;
    }

    method Snapshot() returns (snap: seq<MetricSample>)
      requires Valid()
      ensures IsSnapshot(view, snap)
    {
      hide IsSnapshot, Restrict, Separate, Entry.Holds, LatestOf;
      RestrictEnds(view);
      snap := [];
      var todo := entries.Keys;
      assert view.Keys - todo == {};
      while todo != {}
        invariant Valid() && todo <= view.Keys
        invariant IsSnapshot(Restrict(view, view.Keys - todo), snap)
        decreases todo
      {
        var k :| k in todo;
        entries[k].Reads(k, view[k]);
        SnapshotStep(view, view.Keys - todo, k, snap);
        assert view.Keys - todo + {k} == view.Keys - (todo - {k});
        if entries[k].lastSample.ts != 0 {
          snap := snap + [entries[k].lastSample];
        }
        todo := todo - {k};
      }
      assert view.Keys - todo == view.Keys;
    }

    /** The last `count` samples for the key that are still stored, oldest first. */
    method Recent(key: string, count: nat) returns (samples: seq<MetricSample>)
      requires Valid()
      ensures samples == if key in view then RecentOf(view[key], count) else []
    {
      if key !in entries {
        return [];
      }
      var result := new MetricSample[count];
      var actual := entries[key].buffer.PeekLast(result, count);
      samples := result[..actual];
    }
  }

  ghost function RecentOf(c: Channel, count: nat): seq<MetricSample> {
    Ring(LIVE_CAPACITY, c.samples, 0).Last(count)
  }

  /** Below 2^64 pushes, recent() is the last min(count, pushes, 2048) samples. */
  lemma RecentIsSuffix(c: Channel, count: nat)
    requires |c.samples| < TWO_TO_THE_64
    ensures var n := Min(count, Min(|c.samples|, 2048));
            RecentOf(c, count) == c.samples[|c.samples| - n..]
    ensures count > 0 && c.samples != [] ==>
              RecentOf(c, count) != [] && RecentOf(c, count)[|RecentOf(c, count)| - 1] == c.samples[|c.samples| - 1]
  {
    WrapSmall(|c.samples|);
  }
}
