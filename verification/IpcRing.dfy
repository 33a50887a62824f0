/** An endpoint's ring queue: a fixed buffer with head, tail and count updated in place. */
module IpcRing {
  import opened IpcSpec

  /** The slot that lies `i` places behind the head. */
  function Slot(head: nat, i: nat): (s: nat)
    requires head < QUEUE_CAPACITY && i <= QUEUE_CAPACITY
    ensures s < QUEUE_CAPACITY
  {
    if head + i < QUEUE_CAPACITY then head + i else head + i - QUEUE_CAPACITY
  }

  /** Stepping on wraps around the ring. */
  lemma SlotStep(head: nat, i: nat)
    requires head < QUEUE_CAPACITY && i < QUEUE_CAPACITY
    ensures (Slot(head, i) + 1) % QUEUE_CAPACITY == Slot(head, i + 1)
    ensures Slot((head + 1) % QUEUE_CAPACITY, i) == Slot(head, i + 1)
  {
  }

  class Endpoint {
    const queue: array<Message>
    var head: nat
    var tail: nat
    var count: nat

    ghost predicate Valid()
      reads this
    {
      && queue.Length == QUEUE_CAPACITY
      && head < QUEUE_CAPACITY && count <= QUEUE_CAPACITY
      && tail == Slot(head, count)
    }

    /** The queued messages, oldest first. */
    ghost function Contents(): (q: seq<Message>)
      reads this, queue
      requires Valid()
      ensures |q| == count
    {
      seq(count, i requires 0 <= i < count reads this, queue requires Valid() => queue[Slot(head, i)])
    }

    constructor ()
      ensures Valid() && fresh(queue) && Contents() == []
    {
      queue := new Message[QUEUE_CAPACITY](_ => Message(0, 0, 0, 0, 0, 0));
      head, tail, count := 0, 0, 0;
    }

    /** Scans the ring from the head for a message of this source. */
    method HasPendingSource(source: nat) returns (found: bool)
      requires Valid()
      ensures found <==> HasPending(Contents(), source)
    {
      if source == 0 || count == 0 {
        return false;
      }
      var index := head;
      for i := 0 to count
        invariant index == Slot(head, i)
        invariant forall j :: 0 <= j < i ==> Contents()[j].source != source
      {
        if queue[index].source == source {
          assert Contents()[i].source == source;
          return true;
        }
        SlotStep(head, i);
        index := (index + 1) % QUEUE_CAPACITY;
      }
      found := false;
    }

    method Push(m: Message)
      requires Valid() && count < QUEUE_CAPACITY
      modifies this, queue
      ensures Valid() && Contents() == old(Contents()) + [m]
    {
      ghost var before := Contents();
      queue[tail] := m;
      SlotStep(head, count);
      tail := (tail + 1) % QUEUE_CAPACITY;
      count := count + 1;
      assert forall i :: 0 <= i < count - 1 ==> Contents()[i] == before[i];
    }

    method Pop() returns (m: Message)
      requires Valid() && count > 0
      modifies this
      ensures Valid() && old(Contents()) == [m] + Contents()
    {
      ghost var before := Contents();
      m := queue[head];
      ghost var was := head;
      head := (head + 1) % QUEUE_CAPACITY;
      count := count - 1;
      assert before[0] == m;
      SlotStep(was, count);
      forall i | 0 <= i < count
        ensures Contents()[i] == before[i + 1]
      {
        SlotStep(was, i);
      }
    }
  }
}
