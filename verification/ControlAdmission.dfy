/**
  What the control queue takes, refuses, merges and gives up, told by kinds, priorities and ages; and that a reported
  observation is confirmed.
  */
module ControlAdmission {
  import opened Common
  import opened ControlSpec
  import opened ControlAgeing
  import opened ControlRuns

  // -------------------------------------------------------------- priorities

  /** The types in the order of their priority: SYNC, JOIN_ACK and LEAVE, the slot map and speaker types, all others. */
  function Rank(kind: Byte): nat {
    if kind == 0x05 then 4
    else if kind in [0x03, 0x04] then 3
    else if kind in [0x06, 0x09, 0x0A] then 2
    else 1
  }

  lemma PriorityIsRank(kind: Byte, other: Byte)
    ensures Priority(kind) < Priority(other) <==> Rank(kind) < Rank(other)
    ensures Priority(kind) == PERIODIC <==> Rank(kind) == 1
  {
  }

  // ---------------------------------------------------------------- enqueuing

  /** The same type for the same destination already waits, and a newer packet of that type makes it obsolete. */
  ghost predicate Replaces(item: Item, queued: Item) {
    item.kind in [0x03, 0x06, 0x07, 0x08, 0x09] && queued.kind == item.kind && queued.dest == item.dest
  }

  /**
    The newer packet takes the place of the oldest entry it makes obsolete, with its own contents and the order and age
    of that one; a STATUS reports the bits of both. Nothing else moves.
    */
  lemma NewerReplaces(q: Queue, item: Item, i: nat)
    requires i < |q.items| && Replaces(item, q.items[i]) && forall j :: 0 <= j < i ==> !Replaces(item, q.items[j])
    ensures Decide(q.items, item) == Coalesce(i)
    ensures var after := Enqueue(q, item);
      && after.next == q.next && |after.items| == |q.items|
      && (forall j :: 0 <= j < |q.items| && j != i ==> after.items[j] == q.items[j])
      && var merged := after.items[i];
         && merged.(marks := item.marks) == item.(order := q.items[i].order, enqueuedUs := q.items[i].enqueuedUs)
         && merged.marks == if item.kind == 0x07 then Marks(item.marks.heard + q.items[i].marks.heard,
                                                            item.marks.relayed + q.items[i].marks.relayed)
                            else item.marks
  {
  }

  /** Any other packet goes to the end of a queue with room, behind all others. */
  lemma RoomAppends(q: Queue, item: Item)
    requires |q.items| < 12 && forall j :: 0 <= j < |q.items| ==> !Replaces(item, q.items[j])
    ensures Decide(q.items, item) == Append
    ensures Enqueue(q, item) == Queue(q.items + [item.(order := q.next)], q.next + 1)
  {
  }

  /** It is outranked by every packet of a full queue, or all are equal and periodic. */
  ghost predicate Outranked(q: Queue, item: Item) {
    forall j :: 0 <= j < |q.items| ==>
      q.items[j].priority > item.priority || (q.items[j].priority == item.priority && item.priority == PERIODIC)
  }

  /** A packet goes: no other has a lower priority, and none of the same is older. */
  ghost predicate LeastOf(q: Queue, v: nat) {
    && v < |q.items|
    && forall j :: 0 <= j < |q.items| ==>
         q.items[v].priority < q.items[j].priority
         || (q.items[v].priority == q.items[j].priority && q.items[v].order <= q.items[j].order)
  }

  /** A full queue refuses a packet exactly if all it holds outrank it, or are periodic like it. */
  lemma FullQueueRefuses(q: Queue, item: Item)
    requires |q.items| == 12 && forall j :: 0 <= j < |q.items| ==> !Replaces(item, q.items[j])
    ensures Decide(q.items, item).Reject? <==> Outranked(q, item)
    ensures Outranked(q, item) ==> Enqueue(q, item) == q
  {
    VictimIsLeast(q.items, 0, 1);
    var v := VictimFrom(q.items, 0, 1);
    assert forall j :: 0 <= j < |q.items| ==> !Lesser(q.items[j], q.items[v]);
  }

  /** Otherwise the oldest packet of the lowest priority makes room, and all others stay. */
  lemma FullQueueEvicts(q: Queue, item: Item)
    requires QueueOk(q) && |q.items| == 12 && forall j :: 0 <= j < |q.items| ==> !Replaces(item, q.items[j])
    requires !Outranked(q, item)
    ensures Decide(q.items, item).Evict? && LeastOf(q, Decide(q.items, item).victim)
    ensures var v, after := Decide(q.items, item).victim, Enqueue(q, item);
      && after.next == q.next + 1 && |after.items| == 12 && after.items[11] == item.(order := q.next)
      && (forall j :: 0 <= j < 12 && j != v ==> q.items[j] in after.items)
      && q.items[v].order !in Orders(after.items)
  {
    FullQueueRefuses(q, item);
    VictimIsLeast(q.items, 0, 1);
    var v := VictimFrom(q.items, 0, 1);
    assert forall j :: 0 <= j < |q.items| ==> !Lesser(q.items[j], q.items[v]);
    WithoutAt(q.items, v);
    WithoutOrders(q, v);
    AddedOrders(Without(q.items, v), item.(order := q.next), 0, 0);
  }

  // ---------------------------------------------------------------- dequeuing

  /** After half a second a packet is overdue, and the oldest overdue one goes first, whatever its priority. */
  lemma OverdueGoesFirst(q: Queue, now: int)
    requires QueueOk(q) && q.items != []
    ensures var (rest, taken) := Dequeue(q, now);
      && taken in q.items && |rest.items| == |q.items| - 1 && rest.next == q.next
      && Orders(rest.items) == Orders(q.items) - {taken.order}
      && forall j :: 0 <= j < |q.items| && now - q.items[j].enqueuedUs >= 500000 ==>
           now - taken.enqueuedUs >= 500000 && taken.order <= q.items[j].order
  {
    SelectIsDue(q.items, now);
    WithoutOrders(q, Select(q.items, now));
    assert forall j :: 0 <= j < |q.items| ==> (Overdue(q.items[j], now) <==> now - q.items[j].enqueuedUs >= 500000);
  }

  /** With none overdue the highest priority goes first, and the oldest of it. */
  lemma HighestGoesFirst(q: Queue, now: int)
    requires q.items != [] && forall j :: 0 <= j < |q.items| ==> now - q.items[j].enqueuedUs < 500000
    ensures var taken := Dequeue(q, now).1;
      forall j :: 0 <= j < |q.items| ==>
        q.items[j].priority < taken.priority
        || (q.items[j].priority == taken.priority && taken.order <= q.items[j].order)
  {
    SelectIsDue(q.items, now);
  }

  // -------------------------------------------------------------------- report

  /** A STATUS built from bitmaps in hand. */
  function StatusOf(marks: Marks, now: int, dest: seq<Byte>, body: seq<Byte>): Item {
    Item(STATUS, PERIODIC, 0, now, dest, STATUS_LEN, marks, body)
  }

  /** The bitmaps are taken and queued: nothing is live any more, and the STATUS carries all of it. */
  lemma StatusQueued(s: System, now: int, dest: seq<Byte>, body: seq<Byte>)
    requires Inv(s) && s.queue.items == [] && s.hands == [] && s.flight == None
    ensures Enabled(s, Snapshot)
    ensures var s1, step := Next(s, Snapshot), Offer(0, StatusOf(s.live.marks, now, dest, body));
      && |s1.queued| == |s1.queue.items| && Enabled(s1, step) && !Decide(s1.queue.items, step.item).Reject?
      && var s2 := Next(s1, step);
         && s2.live == EMPTY && s2.hands == [IDLE] && s2.queued == [s.live.tokens] && |s2.queue.items| == 1
         && s2.queue.items[0].kind == STATUS && s2.queue.items[0].marks == s.live.marks
         && s2.flight == None && s2.confirmed == s.confirmed && s2.discarded == s.discarded && s2.notes == s.notes
  {
  }

  /** The queued STATUS is taken, launched and sent: all it reports is confirmed, and nothing is left anywhere. */
  lemma StatusConfirmed(s: System, now: int)
    requires |s.queued| == |s.queue.items| == 1 && s.queue.items[0].kind == STATUS
    requires s.live == EMPTY && s.hands == [IDLE] && s.flight == None
    ensures Enabled(s, TakeNext(now))
    ensures var s1 := Next(s, TakeNext(now));
      && |s1.queued| == |s1.queue.items| == 0 && Enabled(s1, Launch(1))
      && var s2 := Next(s1, Launch(1));
         && s2.flight == Some(Holder(s.queue.items[0].marks, s.queued[0])) && Enabled(s2, Launched(1))
         && var s3 := Next(s2, Launched(1));
            && |s3.queued| == |s3.queue.items| && s3.hands == [IDLE, IDLE]
            && var s4 := Next(s3, Done(true));
               && s4.confirmed == s.confirmed + s.queued[0] && s4.flight == None && s4.live == EMPTY
               && s4.queue.items == [] && s4.discarded == s.discarded && s4.notes == s.notes
  {
  }

  /** A transmission that fails, or is abandoned, gives all its observations back to the live bitmaps. */
  lemma FailureGivesBack(s: System, step: Step)
    requires |s.queued| == |s.queue.items| && s.flight.Some? && (step == Done(false) || step == Abandon)
    ensures Enabled(s, step)
    ensures var t := Next(s, step);
      && t.flight == None && t.live.tokens == s.live.tokens + s.flight.value.tokens
      && t.live.marks.heard == s.live.marks.heard + s.flight.value.marks.heard
      && t.live.marks.relayed == s.live.marks.relayed + s.flight.value.marks.relayed
      && t == s.(flight := None, live := t.live)
  {
  }

  /** A packet that the radio refuses is no longer in flight, and giving it back empties the hand. */
  lemma RefusalGivesBack(s: System, hand: nat)
    requires |s.queued| == |s.queue.items| && Enabled(s, Launch(hand))
    ensures var launched := Next(s, Launch(hand));
      && Enabled(launched, Refused(hand))
      && var refused := Next(launched, Refused(hand));
         && refused == s && Enabled(refused, GiveBack(hand))
         && var t := Next(refused, GiveBack(hand));
            && t.flight == None && t.hands == s.hands[hand := IDLE]
            && t.live.tokens == s.live.tokens + s.hands[hand].holder.tokens
            && t == s.(live := t.live, hands := t.hands)
  {
    assert s.hands[hand := s.hands[hand]] == s.hands;
  }

  /** Only one packet is in flight at a time, and one that is no STATUS has nothing to report. */
  lemma OtherFlight(s: System, success: bool)
    requires |s.queued| == |s.queue.items| && s.flight == None
    ensures Enabled(s, LaunchOther) && Next(s, LaunchOther) == s.(flight := Some(EMPTY))
    ensures !Enabled(Next(s, LaunchOther), LaunchOther)
    ensures var t := Next(Next(s, LaunchOther), Done(success));
      t.confirmed == s.confirmed && t.live.tokens == s.live.tokens && t.flight == None
  {
  }

  lemma {:induction false} UnionHas(ss: seq<set<nat>>, t: nat)
    ensures t in Union(ss) <==> exists i :: 0 <= i < |ss| && t in ss[i]
  {
    if ss != [] {
      UnionHas(ss[..|ss| - 1], t);
    }
  }

  /** A session reset empties queue and live bitmaps, and exactly what they held is discarded. */
  lemma ResetForgets(s: System, t: nat)
    requires |s.queued| == |s.queue.items|
    ensures var cleared := Next(s, ResetQueue);
      && cleared.queue == Queue([], s.queue.next) && cleared.queued == []
      && var after := Next(cleared, ResetLive);
         && after.live == EMPTY && after.queue.items == [] && after.hands == s.hands && after.flight == s.flight
         && after.confirmed == s.confirmed
         && (t in after.discarded <==>
               t in s.discarded || t in s.live.tokens || exists i :: 0 <= i < |s.queued| && t in s.queued[i])
  {
    UnionHas(s.queued, t);
  }

  /** An observation sets its bit in the live bitmap for its kind. */
  lemma ObservationIsNoted(s: System, note: Note)
    requires |s.queued| == |s.queue.items|
    ensures var t := Next(s, Observe(note));
      && t.notes == s.notes + [note] && t.live.tokens == s.live.tokens + {|s.notes|}
      && t.live.marks.heard == (if note.relayed then s.live.marks.heard else s.live.marks.heard + {note.id})
      && t.live.marks.relayed == (if note.relayed then s.live.marks.relayed + {note.id} else s.live.marks.relayed)
      && t == s.(notes := t.notes, live := t.live)
  {
  }
}
