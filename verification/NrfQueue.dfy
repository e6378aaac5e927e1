/**
  The nRF's outgoing audio queue to the ESP: producers drop the oldest packet when it is full, while the SPI task
  sends the oldest one from where it lies and removes it only after a successful transfer.
  */
module NrfQueue {
  import opened Common
  import opened Rings

  type Packet = seq<Byte>

  /** The queued packets, oldest first, and the ring index of the oldest. */
  datatype Out = Out(queue: seq<Packet>, tail: nat)

  predicate OutOk(o: Out) { |o.queue| <= ROOM && o.tail < SLOTS }

  /** One more packet: the oldest goes when all fifteen places are taken. */
  function Offered(o: Out, x: Packet): Out {
    if |o.queue| == ROOM then Out(o.queue[1..] + [x], (o.tail + 1) % SLOTS) else Out(o.queue + [x], o.tail)
  }

  /** Several more. */
  function OfferedAll(o: Out, xs: seq<Packet>): Out
    decreases |xs|
  {
    if xs == [] then o else Offered(OfferedAll(o, xs[..|xs| - 1]), xs[|xs| - 1])
  }

  /** After a successful transfer from `index`: the oldest packet goes if the tail is still there. */
  function Committed(o: Out, index: nat): Out
    requires o.queue != []
  {
    if o.tail == index then Out(o.queue[1..], (o.tail + 1) % SLOTS) else o
  }

  /** How many packets are dropped while xs arrive. */
  function Drops(q: seq<Packet>, xs: seq<Packet>): (d: nat)
    requires |q| <= ROOM
  {
    Max(0, |q| + |xs| - ROOM)
  }

  class AudioOut {
    const ring: array<Packet>
    var head: nat
    var tail: nat

    ghost predicate Holds(o: Out)
      reads this, ring
    {
      tail == o.tail && RingIs(ring[..], head, tail, o.queue)
    }

    constructor ()
      ensures Holds(Out([], 0)) && fresh(ring)
    {
      ring := new Packet[SLOTS](_ => []);
      head, tail := 0, 0;
    }

    /** The queueing part of uart_bridge_send_audio and uart_bridge_send_audio_v2. */
    method Send(x: Packet, ghost o: Out)
      requires Holds(o)
      modifies this, ring
      ensures Holds(Offered(o, x))
    {
      RingCount(ring[..], head, tail, o.queue);
      var nextHead := (head + 1) % SLOTS;
      ghost var kept := o.queue;
      if nextHead == tail {
        RingPop(ring[..], head, tail, o.queue);
        tail := (tail + 1) % SLOTS;
        kept := o.queue[1..];
      }
      RingPush(ring[..], head, tail, kept, x);
      ring[head] := x;
      head := nextHead;
    }

    /** The packet about to be transferred and the place it is sent from. */
    method Peek(ghost o: Out) returns (packet: Option<Packet>, index: nat)
      requires Holds(o)
      ensures packet == (if o.queue == [] then None else Some(o.queue[0])) && index == o.tail
    {
      RingCount(ring[..], head, tail, o.queue);
      index := tail;
      if head == tail {
        return None, index;
      }
      RingPop(ring[..], head, tail, o.queue);
      packet := Some(ring[tail]);
    }

    /** The end of a successful transfer of a packet peeked at `index`. */
    method Commit(index: nat, ghost o: Out)
      requires Holds(o) && o.queue != []
      modifies this`tail
      ensures Holds(Committed(o, index))
    {
      RingPop(ring[..], head, tail, o.queue);
      if tail == index {
        tail := (tail + 1) % SLOTS;
      }
    }
  }

  // --------------------------------------------------------------- transfers

  lemma WrapOnce(a: nat)
    ensures (a % SLOTS + 1) % SLOTS == (a + 1) % SLOTS
  {
    WrapThenAdd(a, 1);
  }

  /** The queue keeps exactly the newest packets, in order, and its tail moves once for every drop. */
  lemma {:induction false} KeepsNewest(o: Out, xs: seq<Packet>)
    requires OutOk(o)
    ensures OfferedAll(o, xs).queue == (o.queue + xs)[Drops(o.queue, xs)..]
    ensures OfferedAll(o, xs).tail == (o.tail + Drops(o.queue, xs)) % SLOTS
    decreases |xs|
  {
    if xs == [] {
      assert o.queue + xs == o.queue;
    } else {
      var front, x := xs[..|xs| - 1], xs[|xs| - 1];
      KeepsNewest(o, front);
      assert o.queue + xs == (o.queue + front) + [x];
      WrapOnce(o.tail + Drops(o.queue, front));
    }
  }

  lemma WrapsBack(tail: nat, d: nat)
    requires tail < SLOTS
    ensures (tail + d) % SLOTS == tail <==> d % SLOTS == 0
  {
  }

  /** The tail is back where the transfer began exactly when the drops are a multiple of sixteen. */
  lemma TailReturns(o: Out, xs: seq<Packet>)
    requires OutOk(o)
    ensures OfferedAll(o, xs).tail == o.tail <==> Drops(o.queue, xs) % SLOTS == 0
  {
    KeepsNewest(o, xs);
    WrapsBack(o.tail, Drops(o.queue, xs));
  }

  /** The oldest packet after the arrival of xs, numbered among those queued and arriving. */
  function OldestNumber(o: Out, xs: seq<Packet>): int {
    |o.queue| + |xs| - |OfferedAll(o, xs).queue|
  }

  lemma OldestIs(o: Out, xs: seq<Packet>)
    requires OutOk(o) && o.queue != []
    ensures OldestNumber(o, xs) == Drops(o.queue, xs)
    ensures OfferedAll(o, xs).queue != [] && OfferedAll(o, xs).queue[0] == (o.queue + xs)[Drops(o.queue, xs)]
  {
    KeepsNewest(o, xs);
  }

  /**
    Peek the oldest packet, number 0, let xs arrive during its transfer, commit: the number of the packet that the
    commit removes, if it removes one.
    */
  function Removed(o: Out, xs: seq<Packet>): Option<int>
    requires OfferedAll(o, xs).queue != []
  {
    var before := OfferedAll(o, xs);
    if Committed(before, o.tail).queue == before.queue then None else Some(OldestNumber(o, xs))
  }

  /** A transferred packet is removed if and only if no packet was dropped meanwhile. */
  lemma SentRemoved(o: Out, xs: seq<Packet>)
    requires OutOk(o) && o.queue != []
    ensures OfferedAll(o, xs).queue != []
    ensures Removed(o, xs) == Some(0) <==> Drops(o.queue, xs) == 0
  {
    OldestIs(o, xs);
    TailReturns(o, xs);
  }

  /** A packet that was not sent is removed if and only if a positive multiple of sixteen was dropped meanwhile. */
  lemma UnsentRemoved(o: Out, xs: seq<Packet>)
    requires OutOk(o) && o.queue != []
    ensures OfferedAll(o, xs).queue != []
    ensures (Removed(o, xs).Some? && Removed(o, xs) != Some(0)) <==>
              Drops(o.queue, xs) > 0 && Drops(o.queue, xs) % SLOTS == 0
  {
    OldestIs(o, xs);
    TailReturns(o, xs);
  }

  /** It happens: a full queue and sixteen arrivals in one transfer lose the second of these, which was never sent. */
  lemma SixteenArrivalsLoseOne(o: Out, xs: seq<Packet>)
    requires OutOk(o) && |o.queue| == ROOM && |xs| == SLOTS
    ensures Drops(o.queue, xs) == SLOTS && OfferedAll(o, xs) == Out(xs[1..], o.tail)
    ensures Removed(o, xs) == Some(SLOTS) && (o.queue + xs)[SLOTS] == xs[1]
    ensures Committed(OfferedAll(o, xs), o.tail).queue == xs[2..]
  {
    KeepsNewest(o, xs);
    TailReturns(o, xs);
    assert (o.queue + xs)[SLOTS..] == xs[1..];
  }
}
