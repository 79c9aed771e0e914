/**
 The ring as an object over an array. Each method is one atomic step of a call to `push` or `pop`,
 so that calls from the two sides can be interleaved step by step; `Push` and `Pop` run a whole
 call without interruption.
 */
module LockFreeRingBuffers {
  import opened Wrappers
  import opened MachineWords
  import R = RingBuffer

  class LockFreeRingBuffer<T(0)> {
    const m_data: array<T>
    var m_head: nat
    var m_tail: nat
    var m_producer: R.Producer<T>
    var m_consumer: R.Consumer<T>
    ghost var pushed: seq<T>
    ghost var popped: seq<T>

    ghost function State(): R.Ring<T>
      reads this, m_data
    {
      R.Ring(m_data[..], m_head, m_tail, m_producer, m_consumer, pushed, popped)
    }

    ghost predicate Valid()
      reads this, m_data
    {
      R.Sound(State())
    }

    constructor (capacity: nat)
      requires capacity > 1
      ensures Valid() && fresh(m_data) && m_data.Length == capacity
      ensures State() == R.EmptyRing(m_data[..])
    {
      m_data := new T[capacity];
      m_head, m_tail := 0, 0;
      m_producer, m_consumer := R.Idle, R.Resting;
      pushed, popped := [], [];
      new;
      R.EmptyRingIsSound(m_data[..]);
    }

    method BeginPush(value: T)
      requires Valid() && m_producer.Idle?
      modifies this`m_producer
      ensures Valid() && State() == R.Next(old(State()), R.BeginPush(value))
      ensures m_producer == R.LoadedHead(value, m_head)
    {
      R.NextKeepsSound(State(), R.BeginPush(value));
      m_producer := R.LoadedHead(value, m_head);
    }

    /** Loads the consumer's index; the push fails exactly when the ring is full at this moment. */
    method CheckRoom() returns (room: bool)
      requires Valid() && m_producer.LoadedHead?
      modifies this`m_producer
      ensures Valid() && State() == R.Next(old(State()), R.CheckRoom)
      ensures room <==> old(|pushed| - |popped|) < m_data.Length - 1
      ensures if room then m_producer.FoundRoom? && m_producer.value == old(m_producer.value) else m_producer.Idle?
    {
      R.NextKeepsSound(State(), R.CheckRoom);
      R.RefusedIffFull(State());
      var next := R.Increment(m_producer.head, m_data.Length);
      room := next != m_tail;
      m_producer := if room then R.FoundRoom(m_producer.value, m_producer.head, next) else R.Idle;
    }

    method WriteSlot()
      requires Valid() && m_producer.FoundRoom?
      modifies this`m_producer, m_data
      ensures Valid() && State() == R.Next(old(State()), R.WriteSlot)
      ensures m_producer.Wrote? && m_producer.value == old(m_producer.value)
    {
      R.NextKeepsSound(State(), R.WriteSlot);
      ghost var before := m_data[..];
      m_data[m_producer.head] := m_producer.value;
      assert m_data[..] == before[m_producer.head := m_producer.value];
      m_producer := R.Wrote(m_producer.value, m_producer.next);
    }

    method PublishHead()
      requires Valid() && m_producer.Wrote?
      modifies this`m_producer, this`m_head, this`pushed
      ensures Valid() && State() == R.Next(old(State()), R.PublishHead)
      ensures m_producer.Idle? && pushed == old(pushed) + [old(m_producer.value)]
    {
      R.NextKeepsSound(State(), R.PublishHead);
      m_head := m_producer.next;
      pushed := pushed + [m_producer.value];
      m_producer := R.Idle;
    }

    method BeginPop()
      requires Valid() && m_consumer.Resting?
      modifies this`m_consumer
      ensures Valid() && State() == R.Next(old(State()), R.BeginPop)
      ensures m_consumer.LoadedTail?
    {
      R.NextKeepsSound(State(), R.BeginPop);
      m_consumer := R.LoadedTail(m_tail);
    }

    /** Loads the producer's index; the pop fails exactly when the ring is empty at this moment. */
    method CheckItem() returns (item: bool)
      requires Valid() && m_consumer.LoadedTail?
      modifies this`m_consumer
      ensures Valid() && State() == R.Next(old(State()), R.CheckItem)
      ensures item <==> old(|pushed| - |popped|) > 0
      ensures if item then m_consumer.FoundItem? else m_consumer.Resting?
    {
      R.NextKeepsSound(State(), R.CheckItem);
      R.RefusedIffEmpty(State());
      item := m_consumer.tail != m_head;
      m_consumer := if item then R.FoundItem(m_consumer.tail) else R.Resting;
    }

    method ReadSlot()
      requires Valid() && m_consumer.FoundItem?
      modifies this`m_consumer
      ensures Valid() && State() == R.Next(old(State()), R.ReadSlot)
      ensures m_consumer.Read?
    {
      R.NextKeepsSound(State(), R.ReadSlot);
      m_consumer := R.Read(m_consumer.tail, m_data[m_consumer.tail]);
    }

    method PublishTail() returns (out: T)
      requires Valid() && m_consumer.Read?
      modifies this`m_consumer, this`m_tail, this`popped
      ensures Valid() && State() == R.Next(old(State()), R.PublishTail)
      ensures m_consumer.Resting? && popped == old(popped) + [out] && old(|popped|) < |pushed|
          && out == pushed[old(|popped|)]
    {
      R.NextKeepsSound(State(), R.PublishTail);
      out := m_consumer.out;
      m_tail := R.Increment(m_consumer.tail, m_data.Length);
      popped := popped + [out];
      m_consumer := R.Resting;
    }

    method Push(value: T) returns (ok: bool)
      requires Valid() && m_producer.Idle?
      modifies this`m_producer, this`m_head, this`pushed, m_data
      ensures Valid() && m_producer.Idle?
      ensures ok <==> old(|pushed| - |popped|) < m_data.Length - 1
      ensures pushed == if ok then old(pushed) + [value] else old(pushed)
    {
      hide R.Next, R.Sound;
      BeginPush(value);
      ok := CheckRoom();
      if ok {
        WriteSlot();
        PublishHead();
      }
    }

    method Pop() returns (out: Option<T>)
      requires Valid() && m_consumer.Resting?
      modifies this`m_consumer, this`m_tail, this`popped
      ensures Valid() && m_consumer.Resting?
      ensures out.Some? <==> old(|pushed| - |popped|) > 0
      ensures match out
              case Some(value) => popped == old(popped) + [value] && old(|popped|) < |pushed|
                  && value == pushed[old(|popped|)]
              case None => popped == old(popped)
    {
      hide R.Next, R.Sound;
      BeginPop();
      var item := CheckItem();
      if !item {
        return None;
      }
      ReadSlot();
      var value := PublishTail();
      out := Some(value);
    }

    /** Read while neither side is publishing, the size is exact. */
    method Size() returns (size: int)
      requires Valid()
      ensures size == |pushed| - |popped|
    {
      R.SizeIsExactWhenQuiet(State());
      size := R.SizeOf(m_head, m_tail, m_data.Length);
    }
  }
}
