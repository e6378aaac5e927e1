/** Sixteen-entry rings with one free slot: head is the next write, tail the oldest element. */
module Rings {
  import opened Common

  const SLOTS := 16
  const ROOM := 15

  ghost predicate RingIs<T>(ring: seq<T>, head: nat, tail: nat, queue: seq<T>) {
    && |ring| == SLOTS && tail < SLOTS && |queue| <= ROOM
    && head == Ring16(tail, |queue|)
    && forall k :: 0 <= k < |queue| ==> ring[Ring16(tail, k)] == queue[k]
  }

  /** head == tail exactly when the queue is empty; head + 1 == tail exactly when it is full. */
  lemma RingCount<T>(ring: seq<T>, head: nat, tail: nat, queue: seq<T>)
    requires RingIs(ring, head, tail, queue)
    ensures head == tail <==> queue == []
    ensures (head + 1) % SLOTS == tail <==> |queue| == ROOM
    ensures (if head >= tail then head - tail else SLOTS - tail + head) == |queue|
  {
  }

  lemma RingPush<T>(ring: seq<T>, head: nat, tail: nat, queue: seq<T>, x: T)
    requires RingIs(ring, head, tail, queue) && |queue| < ROOM
    ensures RingIs(ring[head := x], (head + 1) % SLOTS, tail, queue + [x])
  {
    forall k | 0 <= k < |queue|
      ensures Ring16(tail, k) != head
    {
      Ring16Distinct(tail, k, |queue|);
    }
    Ring16Step(tail, |queue|);
  }

  lemma RingPop<T>(ring: seq<T>, head: nat, tail: nat, queue: seq<T>)
    requires RingIs(ring, head, tail, queue) && queue != []
    ensures ring[tail] == queue[0]
    ensures RingIs(ring, head, (tail + 1) % SLOTS, queue[1..])
  {
  }
}
