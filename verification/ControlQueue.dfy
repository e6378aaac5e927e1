/**
  The control queue, the live bitmaps and the transmission in flight, updated in place.
  */
module ControlQueue {
  import opened Common
  import opened ControlSpec

  datatype Err = Ok | InvalidArg | InvalidState | NoMem

  /** tx_inflight_t. */
  datatype Flight = Flight(kind: Byte, marks: Marks)

  /** The bits a packet gives back when it is not sent: those of a full-length STATUS. */
  function BitsOf(item: Item): Marks {
    if item.kind == STATUS && item.len == STATUS_LEN then item.marks else NO_MARKS
  }

  lemma JoinNothing(marks: Marks)
    ensures Join(marks, NO_MARKS) == marks
  {
  }

  class Transport {
    const queue: array<Item>
    var count: nat
    var next: nat
    var live: Marks
    var flight: Option<Flight>
    var stopping: bool

    ghost predicate Valid()
      reads this`count
    {
      queue.Length == CAPACITY && count <= CAPACITY
    }

    ghost function View(): Queue
      requires Valid()
      reads this`count, this`next, queue
    {
      Queue(queue[..count], next)
    }

    constructor (blank: Item)
      ensures Valid() && View() == Queue([], 0) && live == NO_MARKS && flight == None && !stopping && fresh(queue)
    {
      queue := new Item[CAPACITY](_ => blank);
      count, next, live, flight, stopping := 0, 0, NO_MARKS, None, false;
    }

    // ------------------------------------------------------------- enqueuing

    method FindQueued(item: Item) returns (i: nat)
      requires Valid()
      ensures i == FindMatch(queue[..count], item)
    {
      i := 0;
      while i < count
        invariant i <= count && forall j :: 0 <= j < i ==> !Matches(queue[j], item)
      {
        if Matches(queue[i], item) {
          return;
        }
        i := i + 1;
      }
    }

    method FindVictim() returns (victim: nat)
      requires Valid() && count > 0
      ensures victim == VictimFrom(queue[..count], 0, 1)
    {
      victim := 0;
      for i := 1 to count
        invariant victim < i && VictimFrom(queue[..count], victim, i) == VictimFrom(queue[..count], 0, 1)
      {
        if queue[i].priority < queue[victim].priority
           || (queue[i].priority == queue[victim].priority && queue[i].order < queue[victim].order) {
          victim := i;
        }
      }
    }

    /** Element i goes; the last one takes its place. */
    method RemoveAt(i: nat) returns (item: Item)
      requires Valid() && i < count
      modifies this`count, queue
      ensures Valid() && count == old(count) - 1 && item == old(queue[i])
      ensures queue[..count] == Without(old(queue[..count]), i)
    {
      item := queue[i];
      count := count - 1;
      queue[i] := queue[count];
    }

    method AddLast(item: Item)
      requires Valid() && count < CAPACITY
      modifies this`count, this`next, queue
      ensures Valid() && count == old(count) + 1 && next == old(next) + 1
      ensures queue[..count] == old(queue[..count]) + [item.(order := old(next))]
    {
      queue[count] := item.(order := next);
      next := next + 1;
      count := count + 1;
    }

    /** Coalescing: the queued packet's order and age stay, and a STATUS keeps its bits. */
    method Replace(i: nat, item: Item)
      requires Valid() && i < count
      modifies queue
      ensures queue[..count] == old(queue[..count])[i := Merged(old(queue[i]), item)]
    {
      var queued := queue[i];
      var merged := item;
      if item.kind == STATUS {
        merged := merged.(marks := Join(merged.marks, queued.marks));
      }
      merged := merged.(order := queued.order, enqueuedUs := queued.enqueuedUs);
      queue[i] := merged;
    }

    /** The critical section of enqueue_control_packet; `evicted` is the packet given up, if any. */
    method PlaceItem(item: Item) returns (ok: bool, evicted: Option<Item>)
      requires Valid()
      modifies this`count, this`next, queue
      ensures Valid() && View() == Enqueue(old(View()), item)
      ensures var d := Decide(old(queue[..count]), item);
        ok == !d.Reject? && evicted == (if d.Evict? then Some(old(queue[..count])[d.victim]) else None)
    {
      if Supersedes(item.kind) {
        var i := FindQueued(item);
        if i < count {
          Replace(i, item);
          return true, None;
        }
      }
      evicted := None;
      if count == CAPACITY {
        var victim := FindVictim();
        if queue[victim].priority > item.priority
           || (queue[victim].priority == item.priority && item.priority == PERIODIC) {
          return false, None;
        }
        var given := RemoveAt(victim);
        evicted := Some(given);
      }
      AddLast(item);
      ok := true;
    }

    /** mesh_transport_restore_status_bitmaps. */
    method RestoreStatusBitmaps(item: Item)
      modifies this`live
      ensures live == Join(old(live), BitsOf(item))
    {
      JoinNothing(live);
      if item.kind == STATUS && item.len == STATUS_LEN {
        live := Join(live, item.marks);
      }
    }

    /** enqueue_control_packet: refused arguments change nothing, and an evicted STATUS gives its bits back. */
    method EnqueueControlPacket(kind: Byte, len: nat, marks: Marks, body: seq<Byte>, dest: seq<Byte>, nowUs: int)
      returns (result: Err)
      requires Valid()
      modifies this`count, this`next, this`live, queue
      ensures Valid()
      ensures result == InvalidArg <==> kind == SYNC || len > MAX_PAYLOAD
      ensures result == InvalidState <==> kind != SYNC && len <= MAX_PAYLOAD && stopping
      ensures result == InvalidArg || result == InvalidState ==> View() == old(View()) && live == old(live)
      ensures result == Ok || result == NoMem ==>
                var item := Item(kind, Priority(kind), 0, nowUs, dest, HEADER_LEN + len, marks, body);
                var d := Decide(old(queue[..count]), item);
                && View() == Enqueue(old(View()), item)
                && (result == NoMem <==> d.Reject?)
                && live == (if d.Evict? then Join(old(live), BitsOf(old(queue[..count])[d.victim])) else old(live))
    {
      if kind == SYNC || len > MAX_PAYLOAD {
        return InvalidArg;
      }
      if stopping {
        return InvalidState;
      }
      var item := Item(kind, Priority(kind), 0, nowUs, dest, HEADER_LEN + len, marks, body);
      var ok, evicted := PlaceItem(item);
      if evicted.Some? {
        RestoreStatusBitmaps(evicted.value);
      }
      result := if ok then Ok else NoMem;
    }

    // ------------------------------------------------------------- dequeuing

    method FindDue(nowUs: int) returns (selected: nat)
      requires Valid() && count > 0
      ensures selected == Select(queue[..count], nowUs)
    {
      selected := 0;
      var selectedOverdue := nowUs - queue[0].enqueuedUs >= MAX_WAIT_US;
      for i := 1 to count
        invariant selected < i && SelectFrom(queue[..count], nowUs, selected, i) == Select(queue[..count], nowUs)
        invariant selectedOverdue == Overdue(queue[selected], nowUs)
      {
        var overdue := nowUs - queue[i].enqueuedUs >= MAX_WAIT_US;
        if (overdue && !selectedOverdue)
           || (overdue == selectedOverdue && overdue && queue[i].order < queue[selected].order)
           || (!overdue && !selectedOverdue
               && (queue[i].priority > queue[selected].priority
                   || (queue[i].priority == queue[selected].priority && queue[i].order < queue[selected].order))) {
          selected := i;
          selectedOverdue := overdue;
        }
      }
    }

    /** dequeue_control_packet: the packet that is due. */
    method DequeueControlPacket(nowUs: int) returns (item: Option<Item>)
      requires Valid()
      modifies this`count, queue
      ensures Valid()
      ensures item.None? <==> old(count) == 0
      ensures item.None? ==> View() == old(View())
      ensures item.Some? ==> (View(), item.value) == Dequeue(old(View()), nowUs)
      ensures item.Some? ==> IsDue(old(queue[..count]), nowUs, Select(old(queue[..count]), nowUs))
    {
      if count == 0 {
        return None;
      }
      SelectIsDue(queue[..count], nowUs);
      var selected := FindDue(nowUs);
      var taken := RemoveAt(selected);
      item := Some(taken);
    }

    /** reset_control_queue. */
    method ResetControlQueue()
      requires Valid()
      modifies this`count
      ensures Valid() && View() == Queue([], next)
    {
      count := 0;
    }

    // --------------------------------------------------------------- sending

    /** send_status: the bitmaps are taken, queued, and given back when the queue refuses the packet. */
    method SendStatus(body: seq<Byte>, dest: seq<Byte>, nowUs: int) returns (result: Err)
      requires Valid()
      modifies this`count, this`next, this`live, queue
      ensures Valid() && result != InvalidArg
      ensures result != Ok ==> live == old(live) && View() == old(View())
      ensures result == Ok ==>
                var item := Item(STATUS, PERIODIC, 0, nowUs, dest, STATUS_LEN, old(live), body);
                var d := Decide(old(queue[..count]), item);
                && !d.Reject? && View() == Enqueue(old(View()), item)
                && live == (if d.Evict? then BitsOf(old(queue[..count])[d.victim]) else NO_MARKS)
    {
      var taken := live;
      live := NO_MARKS;
      result := EnqueueControlPacket(STATUS, 8, taken, body, dest, nowUs);
      if result != Ok {
        live := Join(live, taken);
      }
      TakenBack(taken);
    }

    lemma TakenBack(taken: Marks)
      ensures Join(NO_MARKS, taken) == taken
      ensures forall bits: Marks :: Join(NO_MARKS, bits) == bits
    {
    }

    /** tracked_esp_now_send: one transmission at a time, and only a LEAVE while stopping. */
    method TrackedSend(kind: Byte, marks: Marks, radioAccepts: bool) returns (sent: bool)
      modifies this`flight
      ensures sent <==> old(flight).None? && (!stopping || kind == LEAVE) && radioAccepts
      ensures flight == if sent then Some(Flight(kind, marks)) else old(flight)
    {
      if flight.Some? || (stopping && kind != LEAVE) {
        return false;
      }
      flight := Some(Flight(kind, marks));
      if !radioAccepts {
        flight := None;
        return false;
      }
      sent := true;
    }

    /** The control slot: the packet that is due is sent, and a STATUS that cannot be gives its bits back. */
    method SendNext(nowUs: int, radioAccepts: bool)
      requires Valid()
      modifies this`count, this`flight, this`live, queue
      ensures Valid()
      ensures old(flight).Some? || old(count) == 0 ==>
                View() == old(View()) && flight == old(flight) && live == old(live)
      ensures !(old(flight).Some? || old(count) == 0) ==>
                var (rest, item) := Dequeue(old(View()), nowUs);
                && View() == rest
                && (if (!stopping || item.kind == LEAVE) && radioAccepts
                    then flight == Some(Flight(item.kind, BitsOf(item))) && live == old(live)
                    else flight == None && live == Join(old(live), BitsOf(item)))
    {
      if flight.Some? {
        return;
      }
      var item := DequeueControlPacket(nowUs);
      if item.None? {
        return;
      }
      var sent := TrackedSend(item.value.kind, BitsOf(item.value), radioAccepts);
      if !sent {
        RestoreStatusBitmaps(item.value);
      }
    }

    /** esp_now_send_cb: a failed STATUS gives its bits back. */
    method SendCallback(success: bool)
      modifies this`flight, this`live
      ensures flight == None
      ensures live == if old(flight).Some? && !success && old(flight).value.kind == STATUS
                      then Join(old(live), old(flight).value.marks) else old(live)
    {
      if flight.None? {
        return;
      }
      if !success && flight.value.kind == STATUS {
        live := Join(live, flight.value.marks);
      }
      flight := None;
    }

    /** force_cleanup_esp_now_transport: an abandoned STATUS gives its bits back. */
    method ForceCleanup()
      modifies this`flight, this`live
      ensures flight == None
      ensures live == if old(flight).Some? && old(flight).value.kind == STATUS
                      then Join(old(live), old(flight).value.marks) else old(live)
    {
      var abandoned := flight;
      flight := None;
      if abandoned.Some? && abandoned.value.kind == STATUS {
        live := Join(live, abandoned.value.marks);
      }
    }

    /** note_audio_activity and the relay path set one bit. */
    method Note(relayed: bool, id: Byte)
      modifies this`live
      ensures live == Join(old(live), if relayed then Marks({}, {id}) else Marks({id}, {}))
    {
      live := Join(live, if relayed then Marks({}, {id}) else Marks({id}, {}));
    }
  }
}
