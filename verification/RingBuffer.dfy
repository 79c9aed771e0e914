/**
 The single-producer single-consumer ring as a state machine over the atomic steps of `push` and
 `pop`: each call loads its own index, loads the other side's index, touches one slot and
 publishes. Steps of the two sides interleave arbitrarily.
 */
module RingBuffer {
  import opened Wrappers
  import opened MachineWords

  datatype Producer<T> =
    | Idle
    | LoadedHead(value: T, head: nat)
    | FoundRoom(value: T, head: nat, next: nat)
    | Wrote(value: T, next: nat)

  datatype Consumer<T> =
    | Resting
    | LoadedTail(tail: nat)
    | FoundItem(tail: nat)
    | Read(tail: nat, out: T)

  /** The ring, both program counters, and the values whose push or pop has taken effect. */
  datatype Ring<T> = Ring(
    slots: seq<T>,
    head: nat,
    tail: nat,
    producer: Producer<T>,
    consumer: Consumer<T>,
    pushed: seq<T>,
    popped: seq<T>)

  function Increment(index: nat, capacity: nat): nat
    requires capacity > 0
  {
    (index + 1) % capacity
  }

  datatype Step<T> =
    | BeginPush(value: T)
    | CheckRoom
    | WriteSlot
    | PublishHead
    | BeginPop
    | CheckItem
    | ReadSlot
    | PublishTail

  /** One atomic step; a step that is not the next one of its side does nothing. */
  function Next<T>(r: Ring<T>, step: Step<T>): Ring<T>
    requires |r.slots| > 1
  {
    var capacity := |r.slots|;
    match step
    case BeginPush(value) => if r.producer.Idle? then r.(producer := LoadedHead(value, r.head)) else r
    case CheckRoom =>
      if !r.producer.LoadedHead? then r else
      var next := Increment(r.producer.head, capacity);
      if next == r.tail then r.(producer := Idle)
      else r.(producer := FoundRoom(r.producer.value, r.producer.head, next))
    case WriteSlot =>
      if !r.producer.FoundRoom? || r.producer.head >= capacity then r
      else r.(slots := r.slots[r.producer.head := r.producer.value],
              producer := Wrote(r.producer.value, r.producer.next))
    case PublishHead =>
      if !r.producer.Wrote? then r
      else r.(head := r.producer.next, producer := Idle, pushed := r.pushed + [r.producer.value])
    case BeginPop => if r.consumer.Resting? then r.(consumer := LoadedTail(r.tail)) else r
    case CheckItem =>
      if !r.consumer.LoadedTail? then r
      else if r.consumer.tail == r.head then r.(consumer := Resting)
      else r.(consumer := FoundItem(r.consumer.tail))
    case ReadSlot =>
      if !r.consumer.FoundItem? || r.consumer.tail >= capacity then r
      else r.(consumer := Read(r.consumer.tail, r.slots[r.consumer.tail]))
    case PublishTail =>
      if !r.consumer.Read? then r
      else r.(tail := Increment(r.consumer.tail, capacity), consumer := Resting, popped := r.popped + [r.consumer.out])
  }

  function Run<T>(r: Ring<T>, schedule: seq<Step<T>>): (result: Ring<T>)
    requires |r.slots| > 1
    ensures |result.slots| == |r.slots|
  {
    if schedule == [] then r else Next(Run(r, schedule[..|schedule| - 1]), schedule[|schedule| - 1])
  }

  // ---------------------------------------------------------------------------
  // The invariant
  // ---------------------------------------------------------------------------

  ghost function Held<T>(r: Ring<T>): int {
    |r.pushed| - |r.popped|
  }

  ghost predicate QueueSound<T>(r: Ring<T>) {
    && |r.slots| > 1
    && r.popped <= r.pushed
    && Held(r) <= |r.slots| - 1
    && r.head == |r.pushed| % |r.slots|
    && r.tail == |r.popped| % |r.slots|
    && (forall k :: |r.popped| <= k < |r.pushed| ==> r.slots[k % |r.slots|] == r.pushed[k])
  }

  ghost predicate ProducerSound<T>(r: Ring<T>)
    requires |r.slots| > 1
  {
    match r.producer
    case Idle => true
    case LoadedHead(_, head) => head == r.head
    case FoundRoom(_, head, next) =>
      head == r.head && next == Increment(r.head, |r.slots|) && Held(r) < |r.slots| - 1
    case Wrote(value, next) =>
      && next == Increment(r.head, |r.slots|) && Held(r) < |r.slots| - 1
      && r.head < |r.slots| && r.slots[r.head] == value
  }

  ghost predicate ConsumerSound<T>(r: Ring<T>) {
    match r.consumer
    case Resting => true
    case LoadedTail(tail) => tail == r.tail
    case FoundItem(tail) => tail == r.tail && Held(r) > 0
    case Read(tail, out) => tail == r.tail && Held(r) > 0 && out == r.pushed[|r.popped|]
  }

  ghost predicate Sound<T>(r: Ring<T>) {
    QueueSound(r) && ProducerSound(r) && ConsumerSound(r)
  }

  // ---------------------------------------------------------------------------
  // Indices modulo the capacity
  // ---------------------------------------------------------------------------

  /** Two counts at most one lap apart share a slot only when they are equal or exactly one lap apart. */
  lemma SameSlot(a: nat, b: nat, capacity: nat)
    requires capacity > 0 && b <= a <= b + capacity
    ensures a % capacity == b % capacity <==> a == b || a == b + capacity
  {
    var d := a - b;
    if d == capacity {
      LapLater(b, capacity);
    } else if a % capacity == b % capacity {
      var p, q := a / capacity, b / capacity;
      assert a == p * capacity + a % capacity && b == q * capacity + b % capacity;
      assert d == (p - q) * capacity by {
        DistributeDifference(p, q, capacity);
      }
      if p - q >= 1 {
        MulMono(1, p - q, capacity);
      } else if p - q <= -1 {
        MulMono(p - q, -1, capacity);
      }
    }
  }

  lemma DistributeDifference(p: int, q: int, capacity: int)
    ensures p * capacity - q * capacity == (p - q) * capacity
  {
  }

  lemma LapLater(b: nat, capacity: nat)
    requires capacity > 0
    ensures (b + capacity) % capacity == b % capacity
  {
    var q, r := b / capacity, b % capacity;
    assert b + capacity == (q + 1) * capacity + r;
    DivModUnique(b + capacity, capacity, q + 1, r);
  }

  lemma IncrementCounts(n: nat, capacity: nat)
    requires capacity > 1
    ensures Increment(n % capacity, capacity) == (n + 1) % capacity
  {
    var q, r := n / capacity, n % capacity;
    assert n == q * capacity + r;
    if r + 1 == capacity {
      assert n + 1 == (q + 1) * capacity;
      DivModUnique(n + 1, capacity, q + 1, 0);
      DivModUnique(r + 1, capacity, 1, 0);
    } else {
      DivModUnique(n + 1, capacity, q, r + 1);
      DivModUnique(r + 1, capacity, 0, r + 1);
    }
  }

  // ---------------------------------------------------------------------------
  // Every step
  // ---------------------------------------------------------------------------

  /** The producer is refused exactly when the ring is full at the moment it loads the tail. */
  lemma RefusedIffFull<T>(r: Ring<T>)
    requires Sound(r) && r.producer.LoadedHead?
    ensures Next(r, CheckRoom).producer.Idle? <==> Held(r) == |r.slots| - 1
  {
    var n := |r.slots|;
    IncrementCounts(|r.pushed|, n);
    SameSlot(|r.popped| + n, |r.pushed| + 1, n);
    LapLater(|r.popped|, n);
  }

  /** The consumer is refused exactly when the ring is empty at the moment it loads the head. */
  lemma RefusedIffEmpty<T>(r: Ring<T>)
    requires Sound(r) && r.consumer.LoadedTail?
    ensures Next(r, CheckItem).consumer.Resting? <==> Held(r) == 0
  {
    SameSlot(|r.pushed|, |r.popped|, |r.slots|);
  }

  /** The slot about to be written holds no value that is still to be popped. */
  lemma WriteSparesLiveSlots<T>(r: Ring<T>)
    requires Sound(r) && r.producer.FoundRoom?
    ensures forall k :: |r.popped| <= k < |r.pushed| ==> k % |r.slots| != r.producer.head
  {
    forall k | |r.popped| <= k < |r.pushed| ensures k % |r.slots| != r.producer.head {
      SameSlot(|r.pushed|, k, |r.slots|);
    }
  }

  /** The two sides never work on the same slot at the same time. */
  lemma SidesUseDifferentSlots<T>(r: Ring<T>)
    requires Sound(r) && r.producer.FoundRoom? && r.consumer.FoundItem?
    ensures r.producer.head != r.consumer.tail
  {
    SameSlot(|r.pushed|, |r.popped|, |r.slots|);
  }

  lemma WriteKeepsSound<T>(r: Ring<T>)
    requires Sound(r) && r.producer.FoundRoom?
    ensures Sound(Next(r, WriteSlot))
  {
    WriteSparesLiveSlots(r);
    var r' := Next(r, WriteSlot);
    forall k | |r'.popped| <= k < |r'.pushed| ensures r'.slots[k % |r'.slots|] == r'.pushed[k] {
      assert k % |r.slots| != r.producer.head;
    }
  }

  lemma PublishHeadKeepsSound<T>(r: Ring<T>)
    requires Sound(r) && r.producer.Wrote?
    ensures Sound(Next(r, PublishHead))
  {
    IncrementCounts(|r.pushed|, |r.slots|);
    var r' := Next(r, PublishHead);
    forall k | |r'.popped| <= k < |r'.pushed| ensures r'.slots[k % |r'.slots|] == r'.pushed[k] {
      if k < |r.pushed| {
        assert r.slots[k % |r.slots|] == r.pushed[k];
      }
    }
  }

  lemma PublishTailKeepsSound<T>(r: Ring<T>)
    requires Sound(r) && r.consumer.Read?
    ensures Sound(Next(r, PublishTail))
  {
    IncrementCounts(|r.popped|, |r.slots|);
    var r' := Next(r, PublishTail);
    forall k | |r'.popped| <= k < |r'.pushed| ensures r'.slots[k % |r'.slots|] == r'.pushed[k] {
      assert r.slots[k % |r.slots|] == r.pushed[k];
    }
  }

  lemma NextKeepsSound<T>(r: Ring<T>, step: Step<T>)
    requires Sound(r)
    ensures Sound(Next(r, step))
  {
    match step
    case CheckRoom =>
      if r.producer.LoadedHead? {
        RefusedIffFull(r);
      }
    case WriteSlot =>
      if r.producer.FoundRoom? {
        WriteKeepsSound(r);
      }
    case PublishHead =>
      if r.producer.Wrote? {
        PublishHeadKeepsSound(r);
      }
    case CheckItem =>
      if r.consumer.LoadedTail? {
        RefusedIffEmpty(r);
      }
    case ReadSlot =>
      if r.consumer.FoundItem? {
        assert r.slots[|r.popped| % |r.slots|] == r.pushed[|r.popped|];
      }
    case PublishTail =>
      if r.consumer.Read? {
        PublishTailKeepsSound(r);
      }
    case _ =>
  }

  // ---------------------------------------------------------------------------
  // Every interleaving
  // ---------------------------------------------------------------------------

  function EmptyRing<T>(slots: seq<T>): Ring<T> {
    Ring(slots, 0, 0, Idle, Resting, [], [])
  }

  lemma {:induction false} RunKeepsSound<T>(slots: seq<T>, schedule: seq<Step<T>>)
    requires |slots| > 1
    ensures Sound(Run(EmptyRing(slots), schedule))
  {
    hide Next, Sound;
    if schedule == [] {
      EmptyRingIsSound(slots);
    } else {
      RunKeepsSound(slots, schedule[..|schedule| - 1]);
      NextKeepsSound(Run(EmptyRing(slots), schedule[..|schedule| - 1]), schedule[|schedule| - 1]);
    }
  }

  lemma EmptyRingIsSound<T>(slots: seq<T>)
    requires |slots| > 1
    ensures Sound(EmptyRing(slots))
  {
  }

  /**
   Under every interleaving of the two sides' steps, the values popped are the first values pushed,
   in order; the occupied slots hold exactly the values not yet popped; and at most one less than
   the capacity is ever held.
   */
  lemma FifoUnderEveryInterleaving<T>(slots: seq<T>, schedule: seq<Step<T>>)
    requires |slots| > 1
    ensures var r := Run(EmptyRing(slots), schedule);
            && r.popped <= r.pushed
            && Held(r) <= |slots| - 1
            && (forall i :: 0 <= i < Held(r) ==> r.slots[(|r.popped| + i) % |slots|] == r.pushed[|r.popped|..][i])
            && (r.producer.FoundRoom? && r.consumer.FoundItem? ==> r.producer.head != r.consumer.tail)
  {
    RunKeepsSound(slots, schedule);
    hide Run;
    var r := Run(EmptyRing(slots), schedule);
    if r.producer.FoundRoom? && r.consumer.FoundItem? {
      SidesUseDifferentSlots(r);
    }
  }

  // ---------------------------------------------------------------------------
  // Calls run through
  // ---------------------------------------------------------------------------

  predicate IsConsumerStep<T>(step: Step<T>) {
    step.BeginPop? || step.CheckItem? || step.ReadSlot? || step.PublishTail?
  }

  lemma {:induction false} RunInTwo<T>(r: Ring<T>, front: seq<Step<T>>, rest: seq<Step<T>>)
    requires |r.slots| > 1
    ensures Run(r, front + rest) == Run(Run(r, front), rest)
    decreases |rest|
  {
    hide Next;
    if rest == [] {
      assert front + rest == front;
    } else {
      var n := |rest| - 1;
      assert (front + rest)[..|front + rest| - 1] == front + rest[..n];
      RunInTwo(r, front, rest[..n]);
    }
  }

  lemma RunOne<T>(r: Ring<T>, step: Step<T>)
    requires |r.slots| > 1
    ensures Run(r, [step]) == Next(r, step)
  {
    hide Next;
    assert [step][..0] == [];
  }

  /** What two states of one ring have in common when only one side has worked in between. */
  ghost predicate OnlyOneWorked<T>(r: Ring<T>, q: Ring<T>, consumer: bool) {
    && |q.slots| == |r.slots|
    && (consumer ==> q.producer == r.producer && q.pushed == r.pushed && |q.popped| >= |r.popped|)
    && (!consumer ==> q.consumer == r.consumer && q.popped == r.popped && r.pushed <= q.pushed)
  }

  lemma StepLeavesOtherSide<T>(r: Ring<T>, step: Step<T>)
    requires |r.slots| > 1
    ensures OnlyOneWorked(r, Next(r, step), IsConsumerStep(step))
  {
  }

  /** While one side works, the other side's work stays as it is, and its own only grows. */
  lemma {:induction false} OtherSideWaits<T>(r: Ring<T>, steps: seq<Step<T>>, consumer: bool)
    requires Sound(r) && forall step :: step in steps ==> IsConsumerStep(step) == consumer
    ensures Sound(Run(r, steps)) && OnlyOneWorked(r, Run(r, steps), consumer)
  {
    hide Next, IsConsumerStep;
    assert |r.slots| > 1;
    if steps != [] {
      var n := |steps| - 1;
      assert steps[n] in steps && forall step :: step in steps[..n] ==> step in steps;
      OtherSideWaits(r, steps[..n], consumer);
      hide Sound;
      NextKeepsSound(Run(r, steps[..n]), steps[n]);
      StepLeavesOtherSide(Run(r, steps[..n]), steps[n]);
    }
  }

  /** Some steps of the other side and then one of this side. */
  function Then<T>(r: Ring<T>, others: seq<Step<T>>, step: Step<T>): Ring<T>
    requires |r.slots| > 1
  {
    Next(Run(r, others), step)
  }

  /**
   A push that begins while there is room completes, whatever the consumer does in between, and a pop
   that begins while something is held takes the oldest value, whatever the producer does in between.
   */
  lemma CallsComplete<T>(r: Ring<T>, value: T, a: seq<Step<T>>, b: seq<Step<T>>, c: seq<Step<T>>, pushing: bool)
    requires Sound(r) && forall step :: step in a + b + c ==> IsConsumerStep(step) == pushing
    ensures pushing && r.producer.Idle? && Held(r) < |r.slots| - 1 ==>
              var q := Then(Then(Then(Next(r, BeginPush(value)), a, CheckRoom), b, WriteSlot), c, PublishHead);
              q.producer.Idle? && q.pushed == r.pushed + [value]
    ensures !pushing && r.consumer.Resting? && Held(r) > 0 ==>
              var q := Then(Then(Then(Next(r, BeginPop), a, CheckItem), b, ReadSlot), c, PublishTail);
              q.consumer.Resting? && q.popped == r.popped + [r.pushed[|r.popped|]]
  {
    assert forall step :: step in a || step in b || step in c ==> step in a + b + c;
    if pushing && r.producer.Idle? && Held(r) < |r.slots| - 1 {
      PushCompletes(r, value, a, b, c);
    }
    if !pushing && r.consumer.Resting? && Held(r) > 0 {
      PopCompletes(r, a, b, c);
    }
  }

  lemma PushCompletes<T>(r: Ring<T>, value: T, a: seq<Step<T>>, b: seq<Step<T>>, c: seq<Step<T>>)
    requires Sound(r) && r.producer.Idle? && Held(r) < |r.slots| - 1
    requires forall step :: step in a || step in b || step in c ==> IsConsumerStep(step)
    ensures var q := Then(Then(Then(Next(r, BeginPush(value)), a, CheckRoom), b, WriteSlot), c, PublishHead);
            q.producer.Idle? && q.pushed == r.pushed + [value]
  {
    var begun := Next(r, BeginPush(value));
    NextKeepsSound(r, BeginPush(value));
    OtherSideWaits(begun, a, true);
    var loaded := Run(begun, a);
    RefusedIffFull(loaded);
    NextKeepsSound(loaded, CheckRoom);
    var found := Next(loaded, CheckRoom);
    OtherSideWaits(found, b, true);
    var ready := Run(found, b);
    assert ready.producer.head < |ready.slots|;
    NextKeepsSound(ready, WriteSlot);
    var wrote := Next(ready, WriteSlot);
    OtherSideWaits(wrote, c, true);
    hide Run, Sound;
  }

  lemma PopCompletes<T>(r: Ring<T>, a: seq<Step<T>>, b: seq<Step<T>>, c: seq<Step<T>>)
    requires Sound(r) && r.consumer.Resting? && Held(r) > 0
    requires forall step :: step in a || step in b || step in c ==> !IsConsumerStep(step)
    ensures var q := Then(Then(Then(Next(r, BeginPop), a, CheckItem), b, ReadSlot), c, PublishTail);
            q.consumer.Resting? && q.popped == r.popped + [r.pushed[|r.popped|]]
  {
    var begun := Next(r, BeginPop);
    NextKeepsSound(r, BeginPop);
    OtherSideWaits(begun, a, false);
    var loaded := Run(begun, a);
    RefusedIffEmpty(loaded);
    NextKeepsSound(loaded, CheckItem);
    var found := Next(loaded, CheckItem);
    OtherSideWaits(found, b, false);
    var ready := Run(found, b);
    assert ready.consumer.tail < |ready.slots|;
    NextKeepsSound(ready, ReadSlot);
    var read := Next(ready, ReadSlot);
    OtherSideWaits(read, c, false);
    assert Run(read, c).consumer.out == r.pushed[|r.popped|];
    hide Run, Sound;
  }

  /** What `size` computes from one reading of both indices. */
  function SizeOf(head: nat, tail: nat, capacity: nat): int {
    if head >= tail then head - tail else capacity - (tail - head)
  }

  lemma CountDifference(a: nat, b: nat, capacity: nat)
    requires b <= a < b + capacity
    ensures SizeOf(a % capacity, b % capacity, capacity) == a - b
  {
    var q, s := b / capacity, b % capacity;
    assert b == q * capacity + s;
    if s + (a - b) < capacity {
      DivModUnique(a, capacity, q, s + (a - b));
    } else {
      assert (q + 1) * capacity == q * capacity + capacity;
      DivModUnique(a, capacity, q + 1, s + (a - b) - capacity);
    }
  }

  /** Read while neither index moves, the size is exact. */
  lemma SizeIsExactWhenQuiet<T>(r: Ring<T>)
    requires Sound(r)
    ensures SizeOf(r.head, r.tail, |r.slots|) == Held(r)
  {
    CountDifference(|r.pushed|, |r.popped|, |r.slots|);
  }
}
