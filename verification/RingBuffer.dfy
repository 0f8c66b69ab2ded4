/**
 Bitwise "and" on unsigned integers, bit by bit, and why masking with a power of two less one is
 a remainder.
 */
module Masks {
  import opened Bytes

  function And(x: nat, y: nat): nat {
    if x == 0 then 0 else 2 * And(x / 2, y / 2) + (if x % 2 == 1 && y % 2 == 1 then 1 else 0)
  }

  lemma {:induction false} AndSelf(x: nat)
    ensures And(x, x) == x
  {
    if x == 0 {
    } else {
      AndSelf(x / 2);
    }
  }

  /** (c & (c - 1)) == 0 holds of a positive c exactly when c is a power of two. */
  lemma {:induction false} PowerOfTwoTest(c: nat)
    requires c > 0
    ensures And(c, c - 1) == 0 <==> exists k: nat :: c == Pow2(k)
  {
    if c % 2 == 1 {
      AndSelf(c / 2);
      if c == 1 {
        assert c == Pow2(0);
        AndZero(c);
      } else {
        forall k: nat ensures c != Pow2(k) {
          if k > 0 { assert Pow2(k) == 2 * Pow2(k - 1); }
        }
      }
    } else {
      PowerOfTwoTest(c / 2);
      assert (c - 1) / 2 == c / 2 - 1;
      if k: nat :| c / 2 == Pow2(k) {
        assert c == Pow2(k + 1);
      }
      if k: nat :| c == Pow2(k) {
        HalfPower(c, k);
      }
    }
  }

  lemma HalfPower(c: nat, k: nat)
    requires c > 0 && c % 2 == 0 && c == Pow2(k)
    ensures exists j: nat :: c / 2 == Pow2(j)
  {
    if k == 0 {
      assert false;
    } else {
      assert c / 2 == Pow2(k - 1);
    }
  }

  lemma {:induction false} MaskIsModulo(x: nat, k: nat)
    ensures And(x, Pow2(k) - 1) == x % Pow2(k)
  {
    if k == 0 {
      assert Pow2(0) == 1;
      AndZero(x);
    } else if x == 0 {
    } else {
      var p := Pow2(k - 1);
      MaskIsModulo(x / 2, k - 1);
      assert (2 * p - 1) / 2 == p - 1;
      DivModDivMod(x, 2, p);
    }
  }

  lemma {:induction false} AndZero(x: nat)
    ensures And(x, 0) == 0
  {
    if x == 0 {
    } else {
      AndZero(x / 2);
    }
  }

  lemma {:induction false} Pow2Monotone(j: nat, k: nat)
    requires j <= k
    ensures Pow2(j) <= Pow2(k)
  {
    if j < k {
      Pow2Monotone(j, k - 1);
    }
  }

  lemma ModMultiple(x: nat, c: nat, m: nat)
    requires c > 0 && m > 0
    ensures c * m > 0 && (x % (c * m)) % c == x % c
  {
    DivModDivMod(x, c, m);
    var r := x % (c * m);
    QuotientUnique(r, c, (x / c) % m, x % c);
  }

  lemma WrappedSlotOfPower(x: nat, k: nat)
    requires k <= 64
    ensures And(x % TWO_TO_THE_64, Pow2(k) - 1) == x % Pow2(k)
  {
    hide And;
    Pow2Of64();
    Pow2Add(k, 64 - k);
    MaskIsModulo(x % TWO_TO_THE_64, k);
    ModMultiple(x, Pow2(k), Pow2(64 - k));
  }

  /** A size_t value: reduction modulo 2^64. */
  function Wrap(x: int): (r: nat)
    ensures r < TWO_TO_THE_64
  {
    x % TWO_TO_THE_64
  }

  /** The slot of the item at an unbounded position. */
  function Slot(x: nat, c: nat): (r: nat)
    requires c > 0
    ensures r < c
  {
    x % c
  }

  /**
   A 64-bit position that has wrapped around, masked with capacity - 1, still selects the slot of
   the unbounded position: a power-of-two capacity divides 2^64.
   */
  lemma WrappedSlot(x: nat, c: nat)
    requires 0 < c < TWO_TO_THE_64 && And(c, c - 1) == 0
    ensures And(Wrap(x), c - 1) == Slot(x, c)
  {
    hide And;
    PowerOfTwoTest(c);
    var k: nat :| c == Pow2(k);
    Pow2Of64();
    if k > 64 {
      Pow2Monotone(64, k);
    }
    WrappedSlotOfPower(x, k);
  }

  lemma WrappedDifference(a: int, b: int)
    ensures Wrap(Wrap(a) - Wrap(b)) == Wrap(a - b)
    ensures Wrap(a) == Wrap(b) <==> Wrap(a - b) == 0
  {
  }

  lemma WrappedSum(a: int, b: int)
    ensures Wrap(Wrap(a) + b) == Wrap(a + b)
  {
  }

  lemma WrapSmall(a: nat)
    ensures Wrap(a) <= a && (a < TWO_TO_THE_64 ==> Wrap(a) == a)
  {
  }

  lemma WrappedLess(a: int, b: nat)
    ensures Wrap(Wrap(a) - b) == Wrap(a - b)
    ensures b <= Wrap(a) ==> Wrap(a) - b == Wrap(a - b)
  {
  }

  /** Positions less than one capacity apart never share a slot; whole laps apart they do. */
  lemma SlotsDiffer(n: nat, j: nat, c: nat)
    requires c > 0 && n - c < j < n
    ensures Slot(j, c) != Slot(n, c)
  {
    var q, r := j / c, j % c;
    if r + (n - j) < c {
      QuotientUnique(n, c, q, r + (n - j));
    } else {
      assert c * (q + 1) == c * q + c;
      QuotientUnique(n, c, q + 1, r + (n - j) - c);
    }
  }

  lemma SameSlot(x: nat, laps: nat, c: nat)
    requires c > 0
    ensures c * laps >= 0 && Slot(x + c * laps, c) == Slot(x, c)
  {
    var q, r := x / c, x % c;
    assert c * (q + laps) == c * q + c * laps;
    QuotientUnique(x + c * laps, c, q + laps, r);
  }

  lemma LapBounds(d: nat, c: nat)
    requires c > 0
    ensures d / c >= 0 && 0 <= c * (d / c) <= d < c * (d / c) + c
    ensures c * (d / c) == 0 <==> d < c
  {
    var q := d / c;
    assert d == c * q + d % c;
    if d >= c {
      MulAtLeast(c, q);
    }
  }
}

/**
 The ring buffer of include/pulseport/ring_buffer.h. The positions are size_t and wrap at 2^64;
 the ghost fields record every item ever pushed and the number of successful pops, without bound.
 */
module Rings {
  import opened Wrappers
  import opened Bytes
  import opened Masks

  /** The abstract ring: everything pushed so far, and how many items the consumer has taken. */
  datatype Ring<T> = Ring(capacity: nat, history: seq<T>, taken: nat)
  {
    ghost predicate Valid() {
      taken <= |history| && (capacity == 0 ==> history == [])
    }

    /** What size() reports: the difference of the 64-bit positions. */
    function Unread(): (n: nat)
      requires Valid()
      ensures n <= |history| - taken
    {
      WrapSmall(|history| - taken);
      Wrap(|history| - taken)
    }

    /** The newest item among those that share the slot of the next unread one. */
    function NextIndex(): (j: nat)
      requires Valid() && taken < |history|
      ensures taken <= j < |history| && |history| - capacity <= j
      ensures j == taken <==> |history| - taken <= capacity
    {
      var laps := (|history| - taken - 1) / capacity;
      LapBounds(|history| - taken - 1, capacity);
      taken + capacity * laps
    }

    function Push(item: T): Ring<T> {
      this.(history := history + [item])
    }

    function Pop(): (Ring<T>, Option<T>)
      requires Valid()
    {
      if Unread() == 0 then (this, None)
      else (this.(taken := taken + 1), Some(history[NextIndex()]))
    }

    /** The last `count` unread items that are still stored, oldest first. */
    function Last(count: nat): (items: seq<T>)
      requires Valid()
    {
      var available := Min(count, Min(Unread(), capacity));
      history[|history| - available..]
    }
  }

  function Min(a: nat, b: nat): nat {
    if a < b then a else b
  }

  lemma LastIs<T>(ring: Ring<T>, count: nat)
    requires ring.Valid()
    ensures var n := Min(count, Min(ring.Unread(), ring.capacity));
            && |ring.Last(count)| == n <= |ring.history|
            && forall i :: 0 <= i < n ==> ring.Last(count)[i] == ring.history[|ring.history| - n + i]
  {
  }

  class RingBuffer<T(0)> {
    const capacity: nat
    const buffer: array<T>
    var writePos: nat
    var readPos: nat
    ghost var history: seq<T>
    ghost var taken: nat

    ghost predicate Valid()
      reads this, buffer
    {
      && capacity < TWO_TO_THE_64 && buffer.Length == capacity
      && (if capacity == 0 then history == [] else And(capacity, capacity - 1) == 0)
      && taken <= |history|
      && writePos == Wrap(|history|)
      && readPos == Wrap(taken)
      && forall j :: 0 <= j < |history| && |history| - capacity <= j ==> buffer[Slot(j, capacity)] == history[j]
    }

    ghost function Abs(): (r: Ring<T>)
      reads this, buffer
      requires Valid()
      ensures r.Valid()
    {
      Ring(capacity, history, taken)
    }

    /** What the static_assert admits: the powers of two and 0. */
    constructor (capacity: nat)
      requires capacity < TWO_TO_THE_64 && And(capacity, Wrap(capacity - 1)) == 0
      ensures Valid() && fresh(this) && fresh(buffer)
      ensures Abs() == Ring(capacity, [], 0)
    {
      hide And, Wrap;
      WrapSmall(0);
      if capacity > 0 {
        WrapSmall(capacity - 1);
      }
      this.capacity := capacity;
      buffer := new T[capacity];
      writePos, readPos := 0, 0;
      history, taken := [], 0;
    }

    /** A ring without capacity has no slot to write to. */
    method Push(item: T)
      requires Valid() && capacity > 0
      modifies this, buffer
      ensures Valid() && Abs() == old(Abs()).Push(item)
    {
      hide And, Slot, Wrap;
      var w := writePos;
      WrappedSlot(|history|, capacity);
      buffer[And(w, capacity - 1)] := item;
      WrappedSum(|history|, 1);
      writePos := Wrap(w + 1);
      forall j | 0 <= j < |history| && |history| - capacity < j ensures Slot(j, capacity) != Slot(|history|, capacity) {
        SlotsDiffer(|history|, j, capacity);
      }
      history := history + [item];
    }

    method Pop() returns (item: Option<T>)
      requires Valid()
      modifies this
      ensures Valid() && (Abs(), item) == old(Abs()).Pop()
    {
      hide And, Slot, Wrap;
      WrappedDifference(|history|, taken);
      var r, w := readPos, writePos;
      if r == w {
        return None;
      }
      ghost var next := Abs().NextIndex();
      WrappedSlot(taken, capacity);
      SameSlot(taken, (|history| - taken - 1) / capacity, capacity);
      assert Slot(next, capacity) == Slot(taken, capacity);
      item := Some(buffer[And(r, capacity - 1)]);
      WrappedSum(taken, 1);
      readPos := Wrap(r + 1);
      taken := taken + 1;
    }

    method Size() returns (n: nat)
      requires Valid()
      ensures n == Abs().Unread()
    {
      WrappedDifference(|history|, taken);
      n := Wrap(writePos - readPos);
    }

    /** Every stored item is found at its wrapped position. */
    lemma StoredAt(j: nat)
      requires Valid() && j < |history| && |history| - capacity <= j
      ensures And(Wrap(j), capacity - 1) < capacity && buffer[And(Wrap(j), capacity - 1)] == history[j]
    {
      hide And, Slot, Wrap;
      WrappedSlot(j, capacity);
    }

    /** Copies without consuming; the caller provides room for `count` items. */
    method PeekLast(out: array<T>, count: nat) returns (n: nat)
      requires Valid() && count <= out.Length && out != buffer
      modifies out
      ensures n <= count && out[..n] == Abs().Last(count) && out[n..] == old(out[n..])
    {
      hide And, Slot, Wrap, Ring.Last, Ring.Unread;
      ghost var ring := Abs();
      UnreadIsDifference();
      var w := writePos;
      var available := Wrap(w - readPos);
      n := count;
      if n > available { n := available; }
      if n > capacity { n := capacity; }
      var start := Wrap(w - n);
      ghost var items := ring.Last(count);
      LastIs(ring, count);
      WrappedLess(|history|, n);
      for i := 0 to n
        invariant forall k :: 0 <= k < i ==> out[k] == items[k]
        invariant forall k :: n <= k < out.Length ==> out[k] == old(out[k])
        invariant unchanged(buffer)
      {
        ghost var j := |history| - n + i;
        StoredAt(j);
        WrappedSum(|history| - n, i);
        out[i] := buffer[And(Wrap(start + i), capacity - 1)];
      }
      assert out[..n] == items;
      assert out[n..] == old(out[n..]);
    }

    lemma UnreadIsDifference()
      requires Valid()
      ensures Wrap(writePos - readPos) == Abs().Unread()
    {
      hide Wrap;
      WrappedDifference(|history|, taken);
    }

    method Latest() returns (item: Option<T>)
      requires Valid()
      ensures item == if Wrap(|history|) == 0 then None else Some(history[|history| - 1])
    {
      var w := writePos;
      WrapSmall(|history|);
      if w == 0 {
        return None;
      }
      hide And, Slot, Wrap;
      WrappedLess(|history|, 1);
      WrappedSlot(|history| - 1, capacity);
      item := Some(buffer[And(w - 1, capacity - 1)]);
    }

    method Recent(count: nat) returns (items: seq<T>)
      requires Valid()
      ensures items == Abs().Last(count)
    {
      var result := new T[count];
      var actual := PeekLast(result, count);
      items := result[..actual];
    }
  }
}

/** When the ring behaves as a first-in first-out queue, over whole runs of pushes and pops. */
module RingFifo {
  import opened Wrappers
  import opened Bytes
  import opened Masks
  import opened Rings

  datatype Op<T> = Push(item: T) | Pop

  /** The ring after a run, and the answers of its pops. */
  function RunRing<T>(capacity: nat, ops: seq<Op<T>>): (r: (Ring<T>, seq<Option<T>>))
    requires 0 < capacity
    ensures r.0.Valid() && r.0.capacity == capacity && r.0.history == Pushed(ops)
  {
    if ops == [] then (Ring(capacity, [], 0), [])
    else
      var (ring, answers) := RunRing(capacity, ops[..|ops| - 1]);
      match ops[|ops| - 1]
      case Push(item) => (ring.Push(item), answers)
      case Pop =>
        var (ring', answer) := ring.Pop();
        (ring', answers + [answer])
  }

  /** The reference: an unbounded queue. */
  function RunQueue<T>(ops: seq<Op<T>>): (seq<T>, seq<Option<T>>) {
    if ops == [] then ([], [])
    else
      var (queue, answers) := RunQueue(ops[..|ops| - 1]);
      match ops[|ops| - 1]
      case Push(item) => (queue + [item], answers)
      case Pop => if queue == [] then (queue, answers + [None]) else (queue[1..], answers + [Some(queue[0])])
  }

  /** No pop happens while more items are unread than the ring can hold. */
  ghost predicate NeverOverrun<T>(capacity: nat, ops: seq<Op<T>>)
    requires 0 < capacity
  {
    if ops == [] then true
    else
      var init := ops[..|ops| - 1];
      var ring := RunRing(capacity, init).0;
      NeverOverrun(capacity, init) && (ops[|ops| - 1].Pop? ==> |ring.history| - ring.taken <= capacity)
  }

  function Pushed<T>(ops: seq<Op<T>>): seq<T> {
    if ops == [] then []
    else Pushed(ops[..|ops| - 1]) + (if ops[|ops| - 1].Push? then [ops[|ops| - 1].item] else [])
  }

  function Received<T>(answers: seq<Option<T>>): seq<T> {
    if answers == [] then []
    else
      var last := answers[|answers| - 1];
      Received(answers[..|answers| - 1]) + (if last.Some? then [last.value] else [])
  }

  ghost predicate Distinct<T>(s: seq<T>) {
    forall i, j :: 0 <= i < j < |s| ==> s[i] != s[j]
  }

  /** Without an overrun the ring answers every pop as the queue does, for any number of pushes. */
  lemma {:induction false} FifoWithoutOverrun<T>(capacity: nat, ops: seq<Op<T>>)
    requires 0 < capacity < TWO_TO_THE_64
    requires NeverOverrun(capacity, ops)
    ensures var (ring, answers) := RunRing(capacity, ops);
            RunQueue(ops) == (ring.history[ring.taken..], answers)
    ensures var (ring, answers) := RunRing(capacity, ops);
            Received(answers) == Pushed(ops)[..ring.taken]
  {
    if ops == [] {
    } else {
      var init := ops[..|ops| - 1];
      FifoWithoutOverrun(capacity, init);
      FifoStep(capacity, ops);
    }
  }

  /** The queue is the unread part of the ring's history, and the items received are the rest. */
  ghost predicate InStep<T>(ring: Ring<T>, answers: seq<Option<T>>, queue: (seq<T>, seq<Option<T>>)) {
    ring.Valid() && queue == (ring.history[ring.taken..], answers) && Received(answers) == ring.history[..ring.taken]
  }

  lemma FifoStep<T>(capacity: nat, ops: seq<Op<T>>)
    requires 0 < capacity < TWO_TO_THE_64 && ops != [] && NeverOverrun(capacity, ops)
    requires var init := ops[..|ops| - 1];
             InStep(RunRing(capacity, init).0, RunRing(capacity, init).1, RunQueue(init))
    ensures InStep(RunRing(capacity, ops).0, RunRing(capacity, ops).1, RunQueue(ops))
  {
    hide InStep;
    var (ring, answers) := RunRing(capacity, ops[..|ops| - 1]);
    match ops[|ops| - 1]
    case Push(item) => PushInStep(ring, answers, RunQueue(ops[..|ops| - 1]), item);
    case Pop => PopInStep(ring, answers, RunQueue(ops[..|ops| - 1]));
  }

  lemma PushInStep<T>(ring: Ring<T>, answers: seq<Option<T>>, queue: (seq<T>, seq<Option<T>>), item: T)
    requires InStep(ring, answers, queue) && ring.capacity > 0
    ensures InStep(ring.Push(item), answers, (queue.0 + [item], queue.1))
  {
    hide Received;
    assert (ring.history + [item])[ring.taken..] == ring.history[ring.taken..] + [item];
    assert (ring.history + [item])[..ring.taken] == ring.history[..ring.taken];
  }

  lemma PopInStep<T>(ring: Ring<T>, answers: seq<Option<T>>, queue: (seq<T>, seq<Option<T>>))
    requires InStep(ring, answers, queue) && |ring.history| - ring.taken <= ring.capacity < TWO_TO_THE_64
    ensures var (ring', answer) := ring.Pop();
            InStep(ring', answers + [answer],
                   if queue.0 == [] then (queue.0, queue.1 + [None]) else (queue.0[1..], queue.1 + [Some(queue.0[0])]))
  {
    hide Wrap;
    WrapSmall(|ring.history| - ring.taken);
    var (ring', answer) := ring.Pop();
    assert (answers + [answer])[..|answers|] == answers;
    if answer.Some? {
      assert ring.history[ring.taken..][1..] == ring.history[ring'.taken..];
      assert ring.history[..ring'.taken] == ring.history[..ring.taken] + [ring.history[ring.taken]];
    }
  }

  /** For distinguishable items the ring is a queue exactly on the runs that never pop an overrun ring. */
  lemma {:induction false} FifoExactlyWithoutOverrun<T>(capacity: nat, ops: seq<Op<T>>)
    requires 0 < capacity < TWO_TO_THE_64 && Distinct(Pushed(ops))
    ensures RunRing(capacity, ops).1 == RunQueue(ops).1 <==> NeverOverrun(capacity, ops)
  {
    if ops == [] {
    } else if NeverOverrun(capacity, ops) {
      FifoWithoutOverrun(capacity, ops);
    } else {
      var init := ops[..|ops| - 1];
      assert Distinct(Pushed(init)) by {
        assert forall i :: 0 <= i < |Pushed(init)| ==> Pushed(init)[i] == Pushed(ops)[i];
      }
      FifoExactlyWithoutOverrun(capacity, init);
      AnswerPrefixes(capacity, ops);
      if NeverOverrun(capacity, init) {
        FifoWithoutOverrun(capacity, init);
        OverrunIsWrong(RunRing(capacity, init).0);
        var a, b := RunRing(capacity, ops).1, RunQueue(ops).1;
        assert a[|a| - 1] != b[|b| - 1];
      }
    }
  }

  /** A pop on an overrun ring answers with an item pushed later than the oldest unread one, or with nothing. */
  lemma OverrunIsWrong<T>(ring: Ring<T>)
    requires ring.Valid() && Distinct(ring.history) && |ring.history| - ring.taken > ring.capacity
    ensures ring.Pop().1 != Some(ring.history[ring.taken])
    ensures ring.history[ring.taken..] != [] && ring.history[ring.taken..][0] == ring.history[ring.taken]
  {
  }

  lemma AnswerPrefixes<T>(capacity: nat, ops: seq<Op<T>>)
    requires 0 < capacity && ops != []
    ensures RunRing(capacity, ops).1 == RunQueue(ops).1
            ==> RunRing(capacity, ops[..|ops| - 1]).1 == RunQueue(ops[..|ops| - 1]).1
  {
    var init := ops[..|ops| - 1];
    var a, b := RunRing(capacity, init).1, RunQueue(init).1;
    var a', b' := RunRing(capacity, ops).1, RunQueue(ops).1;
    if ops[|ops| - 1].Pop? && a' == b' {
      assert a == a'[..|a'| - 1] && b == b'[..|b'| - 1];
    }
  }
}
