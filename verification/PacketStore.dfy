/**
  The playout jitter buffer as the firmware keeps it: sixteen slots indexed by the wrapping
  sequence number, an occupancy array, a depth counter and a 16-bit delivered history.
  Every method is proved to act as the unbounded store of module JitterSpec.
  */
module PacketStore {
  import opened Common
  import opened JitterSpec
  import JitterRuns

  // ------------------------------------------------- the delivered history

  /** 1 << k, for the 16-bit history. */
  function Mask(k: nat): bv16
    requires k < 16
  {
    if k == 0 then 0x1 else if k == 1 then 0x2 else if k == 2 then 0x4 else if k == 3 then 0x8
    else if k == 4 then 0x10 else if k == 5 then 0x20 else if k == 6 then 0x40 else if k == 7 then 0x80
    else if k == 8 then 0x100 else if k == 9 then 0x200 else if k == 10 then 0x400 else if k == 11 then 0x800
    else if k == 12 then 0x1000 else if k == 13 then 0x2000 else if k == 14 then 0x4000 else 0x8000
  }

  predicate Bit(h: bv16, k: nat)
    requires k < 16
  {
    h & Mask(k) != 0
  }

  /** advance_sequence by one frame; every caller passes a count of one. */
  function Shifted(h: bv16, delivered: bool): bv16 {
    if delivered then (h << 1) | 1 else h << 1
  }

  lemma ShiftedBits(h: bv16, delivered: bool)
    ensures Bit(Shifted(h, delivered), 0) == delivered
    ensures forall k :: 0 <= k < 15 ==> Bit(Shifted(h, delivered), k + 1) == Bit(h, k)
  {
  }

  /** The bitmap says which of the last sixteen frames were played. */
  ghost predicate HistoryOk(h: bv16, next: int, floor: int, delivered: seq<(int, Packet)>) {
    forall k :: 0 <= k < 16 ==> (Bit(h, k) <==> Remembered(floor, delivered, next - 1 - k))
  }

  lemma NothingRemembered(next: int, floor: int, delivered: seq<(int, Packet)>)
    requires forall i :: 0 <= i < |delivered| ==> delivered[i].0 < floor
    ensures HistoryOk(0, next, floor, delivered)
  {
  }

  lemma HistoryAdvances(h: bv16, next: int, floor: int, before: seq<(int, Packet)>, played: bool,
                        after: seq<(int, Packet)>)
    requires HistoryOk(h, next, floor, before) && floor <= next
    requires if played then exists k :: after == before + [(next, k)] else after == before
    requires forall i :: 0 <= i < |before| ==> before[i].0 < next
    ensures HistoryOk(Shifted(h, played), next + 1, floor, after)
  {
    ShiftedBits(h, played);
    if played {
      var k :| after == before + [(next, k)];
      assert after[|before|].0 == next;
    }
    forall u
      ensures IsDelivered(after, u) <==> IsDelivered(before, u) || (played && u == next)
    {
      if IsDelivered(before, u) {
        var i :| 0 <= i < |before| && before[i].0 == u;
        assert after[i].0 == u;
      }
    }
    forall k | 0 <= k < 16
      ensures Bit(Shifted(h, played), k) <==> Remembered(floor, after, next - k)
    {
      if k > 0 {
        assert Bit(Shifted(h, played), (k - 1) + 1) == Bit(h, k - 1);
      }
    }
  }

  // ------------------------------------------------------ counting a window

  lemma {:induction false} SpanSize(s: set<int>, low: int, n: nat)
    requires forall u :: u in s ==> low <= u < low + n
    ensures |s| <= n
    decreases n
  {
    if n == 0 {
      assert forall u :: u in s ==> false;
    } else {
      SpanSize(s - {low + n - 1}, low, n - 1);
    }
  }

  /** A window of n numbers with a free one holds fewer than n packets. */
  lemma WindowRoom(w: map<int, Packet>, low: int, n: nat, free: int)
    requires forall u :: u in w ==> low <= u < low + n
    requires low <= free < low + n && free !in w
    ensures |w| < n
  {
    SpanSize(w.Keys + {free}, low, n);
  }

  // ------------------------------------------------------ slots and numbers

  /** The number of a window starting at `next` that lands in slot i. */
  function NumberIn(next: int, i: nat): int
    requires i < CAPACITY
  {
    next + (i - next) % CAPACITY
  }

  lemma SlotNumber(next: int, i: nat)
    requires i < CAPACITY
    ensures next <= NumberIn(next, i) < next + CAPACITY && NumberIn(next, i) % CAPACITY == i
  {
  }

  lemma NumberSlot(next: int, u: int)
    requires next <= u < next + CAPACITY
    ensures NumberIn(next, u % CAPACITY) == u
  {
  }

  lemma WrapSlot(u: int)
    ensures (u % 0x1_0000) % CAPACITY == u % CAPACITY
  {
  }

  /** Wrapping distances agree with real ones below 2^16. */
  lemma WrappedDistance(a: int, b: int)
    ensures 0 <= b - a < 0x1_0000 ==> (b % 0x1_0000 - a % 0x1_0000) % 0x1_0000 == b - a
  {
  }

  /** How the two 16-bit subtractions of push read in unwrapped numbers. */
  lemma PushDistances(next: int, sequence: Word)
    ensures var u := Unwrap(next, sequence);
      var distance := (sequence - next % 0x1_0000) % 0x1_0000;
      var age := (next % 0x1_0000 - sequence) % 0x1_0000;
      if u >= next then distance == u - next < 0x8000 else distance >= 0x8000 && age == next - u <= 0x8000
  {
    var u := Unwrap(next, sequence);
    WrappedDistance(next, u);
    WrappedDistance(u, next);
  }

  /** Every slot holds the packet of the window that lands in it, or is free. */
  ghost predicate Holds(packets: seq<Packet>, occupied: seq<bool>, w: map<int, Packet>, next: int) {
    && |packets| == CAPACITY && |occupied| == CAPACITY
    && (forall u :: u in w ==> next <= u < next + CAPACITY)
    && (forall i :: 0 <= i < CAPACITY ==>
          && (occupied[i] <==> NumberIn(next, i) in w)
          && (occupied[i] ==> packets[i] == w[NumberIn(next, i)]))
  }

  /** The window may be anchored at any number that still spans it. */
  lemma HoldsFrom(packets: seq<Packet>, occupied: seq<bool>, w: map<int, Packet>, next: int, next': int)
    requires Holds(packets, occupied, w, next)
    requires forall u :: u in w ==> next' <= u < next' + CAPACITY
    ensures Holds(packets, occupied, w, next')
  {
    forall i | 0 <= i < CAPACITY
      ensures NumberIn(next', i) in w <==> NumberIn(next, i) in w
      ensures NumberIn(next', i) in w ==> NumberIn(next', i) == NumberIn(next, i)
    {
      SlotNumber(next, i);
      SlotNumber(next', i);
      if NumberIn(next, i) in w {
        NumberSlot(next', NumberIn(next, i));
      }
      if NumberIn(next', i) in w {
        NumberSlot(next, NumberIn(next', i));
      }
    }
  }

  /** A number of the span that is not in the window has a free slot, and filing it there is right. */
  lemma HoldsInsert(packets: seq<Packet>, occupied: seq<bool>, w: map<int, Packet>, next: int, u: int, slot: nat,
                    k: Packet)
    requires Holds(packets, occupied, w, next)
    requires next <= u < next + CAPACITY && u !in w && slot == u % CAPACITY
    ensures !occupied[slot] && |w| < CAPACITY && |w[u := k]| == |w| + 1
    ensures Holds(packets[slot := k], occupied[slot := true], w[u := k], next)
  {
    NumberSlot(next, u);
    WindowRoom(w, next, CAPACITY, u);
    forall i | 0 <= i < CAPACITY && i != slot
      ensures NumberIn(next, i) != u
    {
      SlotNumber(next, i);
    }
  }

  lemma HoldsRemove(packets: seq<Packet>, occupied: seq<bool>, w: map<int, Packet>, next: int, u: int, slot: nat)
    requires Holds(packets, occupied, w, next) && u in w && slot == u % CAPACITY
    ensures Holds(packets, occupied[slot := false], w - {u}, next)
    ensures |w - {u}| == |w| - 1
  {
  }

  /** The slot of a number of the span is occupied by that very packet or by none. */
  lemma HoldsAt(packets: seq<Packet>, occupied: seq<bool>, w: map<int, Packet>, next: int, u: int, slot: nat)
    requires Holds(packets, occupied, w, next)
    requires next <= u < next + CAPACITY && slot == u % CAPACITY
    ensures occupied[slot] <==> u in w
    ensures u in w ==> packets[slot] == w[u]
  {
  }

  /** can_move_start: every stored packet is less than sixteen ahead of `sequence`, modulo 2^16. */
  method CanMoveStartSlots(packets: array<Packet>, occupied: array<bool>, sequence: Word,
                           ghost w: map<int, Packet>, ghost next: int, ghost u: int)
    returns (ok: bool)
    requires Holds(packets[..], occupied[..], w, next)
    requires forall v :: v in w ==> w[v].sequence == v % 0x1_0000
    requires u % 0x1_0000 == sequence && u < next && next - u <= 0x8000
    ensures ok == forall v :: v in w ==> v - u < CAPACITY
  {
    for index := 0 to CAPACITY
      invariant forall v :: v in w && v % CAPACITY < index ==> v - u < CAPACITY
    {
      ghost var v := NumberIn(next, index);
      SlotNumber(next, index);
      HoldsAt(packets[..], occupied[..], w, next, v, index);
      forall v' | v' in w && v' % CAPACITY == index
        ensures v' == v
      {
        NumberSlot(next, v');
      }
      if occupied[index] {
        assert packets[index] == w[v];
        WrappedDistance(u, v);
        if (packets[index].sequence - sequence) % 0x1_0000 >= CAPACITY {
          return false;
        }
      }
    }
    return true;
  }

  /** A landed packet lies inside the span of its window. */
  lemma LandedSpans(p: Play, u: int)
    requires Inv(p) && Landed(p, u).1 == PushOk
    ensures var q := Landed(p, u).0;
      && q.window == p.window && q.delivered == p.delivered && q.next <= u < q.next + CAPACITY
      && (u in p.window ==> q == p)
  {
  }

  // ---------------------------------------------------------------- store

  lemma FirstPlayOk(k: Packet, now: nat)
    ensures Inv(FirstPlay(k, now)) && |FirstPlay(k, now).window| == 1
  {
    assert FirstPlay(k, now).window.Keys == {FirstPlay(k, now).next};
  }

  lemma ClockKeepsInv(s: Store, c: Clock)
    requires !s.Empty? && StoreInv(s) && (ClockOf(s).started ==> c.started)
    ensures StoreInv(WithClock(s, c))
  {
  }

  class AudioPacketStore {
    const packets: array<Packet>
    const occupied: array<bool>
    var depth: nat
    var arrivalHead: nat
    var arrivalTail: nat
    var mode: Mode
    var modeSet: bool
    var sequenceSet: bool
    var expectedSequence: Word
    var deliveredHistory: bv16
    var consecutiveEmptyMissing: nat
    var playoutStarted: bool
    var dtxIdle: bool
    var sequenceUncertain: bool
    var prefillDeadlineMs: nat
    var nextDeadlineMs: nat

    /** The store of JitterSpec that these fields stand for. */
    ghost var spec: Store

    ghost predicate Shape()
    {
      packets.Length == CAPACITY && occupied.Length == CAPACITY
    }

    ghost predicate ClockIs(c: Clock)
      reads this`prefillDeadlineMs, this`playoutStarted, this`nextDeadlineMs
    {
      && prefillDeadlineMs == c.prefillDeadline && playoutStarted == c.started
      && nextDeadlineMs == c.nextDeadline
    }

    /** The fields that hold a sequenced store, apart from mode, depth and clock. */
    ghost predicate SequencedIs(p: Play)
      reads this`sequenceSet, this`expectedSequence, this`consecutiveEmptyMissing, this`sequenceUncertain
      reads this`dtxIdle, this`deliveredHistory, packets, occupied
    {
      && sequenceSet
      && expectedSequence == p.next % 0x1_0000
      && Holds(packets[..], occupied[..], p.window, p.next)
      && consecutiveEmptyMissing == p.emptyMissing && sequenceUncertain == p.uncertain
      && dtxIdle == p.dtxIdle
      && HistoryOk(deliveredHistory, p.next, p.floor, p.delivered)
    }

    /** The fields that hold an arrival-order store, apart from mode, depth and clock. */
    ghost predicate ArrivalIs(queue: seq<Packet>)
      requires Shape()
      reads this`arrivalHead, this`arrivalTail, packets
    {
      && arrivalHead < CAPACITY && arrivalTail == Ring16(arrivalHead, |queue|)
      && forall k :: 0 <= k < |queue| ==> packets[Ring16(arrivalHead, k)] == queue[k]
    }

    /** The fields stand for the store s. */
    ghost predicate FieldsAre(s: Store)
      requires Shape()
      reads this`depth, this`arrivalHead, this`arrivalTail, this`mode, this`modeSet
      reads this`sequenceSet, this`expectedSequence, this`deliveredHistory, this`consecutiveEmptyMissing
      reads this`playoutStarted, this`dtxIdle, this`sequenceUncertain, this`prefillDeadlineMs, this`nextDeadlineMs
      reads packets, occupied
    {
      match s
      case Empty =>
        && !modeSet && !sequenceSet && depth == 0 && arrivalHead == arrivalTail == 0
        && !playoutStarted && !dtxIdle && !sequenceUncertain
        && consecutiveEmptyMissing == 0 && deliveredHistory == 0 && nextDeadlineMs == 0
        && forall i :: 0 <= i < CAPACITY ==> !occupied[i]
      case InOrder(p) =>
        && modeSet && mode == Sequenced && SequencedIs(p) && depth == |p.window| && ClockIs(p.clock)
      case Arrival(queue, idle, clock) =>
        && modeSet && mode == ArrivalOrder && dtxIdle == idle && ClockIs(clock)
        && depth == |queue| && ArrivalIs(queue)
    }

    ghost predicate Valid()
      reads this, packets, occupied
    {
      Shape() && StoreInv(spec) && FieldsAre(spec)
    }

    /** audio_packet_store_reset on fresh memory. */
    constructor (blank: Packet)
      ensures Valid() && spec == Empty && fresh(packets) && fresh(occupied)
    {
      packets := new Packet[CAPACITY](_ => blank);
      occupied := new bool[CAPACITY](_ => false);
      depth, arrivalHead, arrivalTail := 0, 0, 0;
      mode, modeSet, sequenceSet, expectedSequence := Sequenced, false, false, 0;
      deliveredHistory, consecutiveEmptyMissing := 0, 0;
      playoutStarted, dtxIdle, sequenceUncertain := false, false, false;
      prefillDeadlineMs, nextDeadlineMs := 0, 0;
      spec := Empty;
    }

    /** was_delivered. */
    method WasDelivered(sequence: Word, ghost p: Play) returns (ok: bool)
      requires SequencedIs(p)
      ensures var u := Unwrap(p.next, sequence);
        u < p.next ==> (ok <==> p.next - u <= CAPACITY && Remembered(p.floor, p.delivered, u))
    {
      PushDistances(p.next, sequence);
      var age := (expectedSequence - sequence) % 0x1_0000;
      if age == 0 || age > 16 {
        return false;
      }
      ok := Bit(deliveredHistory, age - 1);
    }

    /** The speculative rewind: restart the window at an older packet and forget the history. */
    method Rewind(sequence: Word, ghost p: Play, ghost u: int)
      requires Shape() && SequencedIs(p) && Inv(p)
      requires u % 0x1_0000 == sequence && u < p.next && CanRewind(p, u)
      modifies this`expectedSequence, this`deliveredHistory, this`sequenceUncertain
      ensures SequencedIs(Landed(p, u).0)
    {
      NothingRemembered(u, u, p.delivered);
      HoldsFrom(packets[..], occupied[..], p.window, p.next, u);
      expectedSequence := sequence;
      deliveredHistory := 0;
      sequenceUncertain := false;
    }

    /** The start of the window moves back to an older packet before playout. */
    method MoveStart(sequence: Word, ghost p: Play, ghost u: int)
      requires Shape() && SequencedIs(p) && Inv(p)
      requires u % 0x1_0000 == sequence && u < p.next && !CanRewind(p, u) && CanMoveStart(p, u)
      modifies this`expectedSequence
      ensures SequencedIs(Landed(p, u).0)
    {
      HoldsFrom(packets[..], occupied[..], p.window, p.next, u);
      expectedSequence := sequence;
    }

    /** The first half of the sequenced push: reject the number or settle where the window starts. */
    method Locate(sequence: Word, ghost p: Play) returns (result: PushResult, clearUncertainty: bool)
      requires Shape() && SequencedIs(p) && Inv(p) && depth == |p.window| && playoutStarted == p.clock.started
      modifies this`expectedSequence, this`deliveredHistory, this`sequenceUncertain
      ensures var u := Unwrap(p.next, sequence);
        && result == Landed(p, u).1 && SequencedIs(Landed(p, u).0)
        && (result == PushOk ==> clearUncertainty == (p.uncertain && p.next <= u))
      ensures Landed(p, Unwrap(p.next, sequence)).0 == p ==> unchanged(this)
    {
      ghost var u := Unwrap(p.next, sequence);
      clearUncertainty := false;
      PushDistances(p.next, sequence);
      var distance := (sequence - expectedSequence) % 0x1_0000;
      var age := (expectedSequence - sequence) % 0x1_0000;
      if sequenceUncertain {
        if distance >= 0x8000 && depth == 0 && age <= consecutiveEmptyMissing {
          Rewind(sequence, p, u);
          return PushOk, false;
        } else if distance < 0x8000 {
          clearUncertainty := true;
        }
      }
      if distance >= 0x8000 {
        result := LocateBehind(sequence, p, age);
        return result, clearUncertainty;
      }
      result := if distance >= CAPACITY then Future else PushOk;
    }

    /** A number behind the window that no rewind claims: it moves the start, or is a duplicate, or is late. */
    method LocateBehind(sequence: Word, ghost p: Play, age: nat) returns (result: PushResult)
      requires Shape() && SequencedIs(p) && Inv(p) && depth == |p.window| && playoutStarted == p.clock.started
      requires age == (expectedSequence - sequence) % 0x1_0000
      requires Unwrap(p.next, sequence) < p.next && !CanRewind(p, Unwrap(p.next, sequence))
      modifies this`expectedSequence, this`deliveredHistory
      ensures var u := Unwrap(p.next, sequence);
        result == Landed(p, u).1 && SequencedIs(Landed(p, u).0)
      ensures Landed(p, Unwrap(p.next, sequence)).0 == p ==> unchanged(this)
    {
      ghost var u := Unwrap(p.next, sequence);
      PushDistances(p.next, sequence);
      var move := false;
      if !playoutStarted && 0 < age < 0x8000 {
        move := CanMoveStartSlots(packets, occupied, sequence, p.window, p.next, u);
      }
      if move {
        MoveStart(sequence, p, u);
        return PushOk;
      }
      var played := WasDelivered(sequence, p);
      result := if played then Duplicate else Late;
    }

    /** The sequenced branch of audio_packet_store_push, up to the bookkeeping shared with arrival order. */
    method PushSequenced(packet: Packet, ghost p: Play) returns (result: PushResult)
      requires Shape() && SequencedIs(p) && Inv(p) && depth == |p.window| && playoutStarted == p.clock.started
      modifies this`expectedSequence, this`deliveredHistory, this`sequenceUncertain, this`dtxIdle, packets, occupied
      ensures var (q, r) := PushInOrder(p, packet);
        && result == r && SequencedIs(q) && |q.window| == (if r == PushOk then depth + 1 else depth)
      ensures result != PushOk ==> unchanged(this) && unchanged(packets) && unchanged(occupied)
    {
      ghost var u := Unwrap(p.next, packet.sequence);
      ghost var q := Landed(p, u).0;
      var clearUncertaintyOnAccept: bool;
      result, clearUncertaintyOnAccept := Locate(packet.sequence, p);
      if result != PushOk {
        return;
      }
      var slot: int := packet.sequence % CAPACITY;
      LandedSpans(p, u);
      WrapSlot(u);
      HoldsAt(packets[..], occupied[..], q.window, q.next, u, slot);
      if occupied[slot] {
        assert packets[slot].sequence == packet.sequence;
        assert q == p;
        return if packets[slot].sequence == packet.sequence then Duplicate else Future;
      }
      HoldsInsert(packets[..], occupied[..], q.window, q.next, u, slot, packet);
      assert depth < CAPACITY;
      packets[slot] := packet;
      occupied[slot] := true;
      if clearUncertaintyOnAccept {
        sequenceUncertain := false;
        dtxIdle := false;
      }
    }

    /** The first sequenced packet defines where the window starts. */
    method PlaceFirst(packet: Packet, ghost p: Play)
      requires Shape() && p.next == packet.sequence && p.window == map[p.next := packet]
      requires p.delivered == [] && p.emptyMissing == consecutiveEmptyMissing
      requires p.uncertain == sequenceUncertain && p.dtxIdle == dtxIdle && deliveredHistory == 0
      requires forall i :: 0 <= i < CAPACITY ==> !occupied[i]
      modifies this`expectedSequence, this`sequenceSet, packets, occupied
      ensures SequencedIs(p)
    {
      expectedSequence := packet.sequence;
      sequenceSet := true;
      var slot := packet.sequence % CAPACITY;
      HoldsInsert(packets[..], occupied[..], map[], p.next, p.next, slot, packet);
      packets[slot] := packet;
      occupied[slot] := true;
      NothingRemembered(p.next, p.floor, p.delivered);
    }

    /** The arrival-order branch of audio_packet_store_push. */
    method PushArrival(packet: Packet, ghost queue: seq<Packet>) returns (result: PushResult)
      requires Shape() && ArrivalIs(queue) && depth == |queue| <= CAPACITY
      modifies this`arrivalTail, packets, occupied
      ensures result == if |queue| == CAPACITY then Full else PushOk
      ensures result == PushOk ==> ArrivalIs(queue + [packet])
      ensures result != PushOk ==> unchanged(this) && unchanged(packets) && unchanged(occupied)
    {
      if depth == CAPACITY {
        return Full;
      }
      var slot := arrivalTail;
      forall k | 0 <= k < |queue|
        ensures Ring16(arrivalHead, k) != slot
      {
        Ring16Distinct(arrivalHead, k, |queue|);
      }
      Ring16Step(arrivalHead, |queue|);
      packets[slot] := packet;
      occupied[slot] := true;
      arrivalTail := (arrivalTail + 1) % CAPACITY;
      assert forall k :: 0 <= k < |queue| ==> packets[Ring16(arrivalHead, k)] == queue[k];
      result := PushOk;
    }

    /** The end of audio_packet_store_push: the first packet fixes the mode and the prefill deadline. */
    method Admit(packet: Packet, nowMs: nat, ghost target: Store)
      requires Shape() && !target.Empty? && StoreInv(target)
      requires packet.mode == if target.InOrder? then Sequenced else ArrivalOrder
      requires modeSet ==> mode == packet.mode && ClockIs(ClockOf(target))
      requires !modeSet ==> ClockOf(target) == FirstClock(nowMs) && !playoutStarted && nextDeadlineMs == 0
      requires target.InOrder? ==> SequencedIs(target.play) && |target.play.window| == depth + 1
      requires target.Arrival? ==> ArrivalIs(target.queue) && |target.queue| == depth + 1 && dtxIdle == target.idle
      modifies this`mode, this`modeSet, this`prefillDeadlineMs, this`depth, this`spec
      ensures Valid() && spec == target
    {
      if !modeSet {
        mode := packet.mode;
        modeSet := true;
        prefillDeadlineMs := nowMs + PREFILL_MS;
      }
      depth := depth + 1;
      spec := target;
    }

    method PushToArrival(packet: Packet, nowMs: nat) returns (result: PushResult)
      requires Valid() && !spec.InOrder? && packet.mode.ArrivalOrder? && 0 < |packet.data| <= MAX_PACKET_SIZE
      modifies this, packets, occupied
      ensures Valid()
      ensures (spec, result) == JitterSpec.Push(old(spec), packet, nowMs)
      ensures result != PushOk ==> unchanged(this) && unchanged(packets) && unchanged(occupied)
    {
      ghost var target := JitterSpec.Push(spec, packet, nowMs).0;
      ghost var queue := if spec.Arrival? then spec.queue else [];
      result := PushArrival(packet, queue);
      assert queue == [] ==> queue + [packet] == [packet];
      if result == PushOk {
        Admit(packet, nowMs, target);
      }
    }

    /** The sequenced push into a store that has no sequence yet. */
    method PushFirst(packet: Packet, nowMs: nat)
      requires Valid() && spec.Empty? && packet.mode.Sequenced?
      modifies this, packets, occupied
      ensures Valid() && spec == InOrder(FirstPlay(packet, nowMs))
    {
      ghost var target := InOrder(FirstPlay(packet, nowMs));
      FirstPlayOk(packet, nowMs);
      PlaceFirst(packet, target.play);
      Admit(packet, nowMs, target);
    }

    /** The sequenced push into a sequenced store. */
    method PushNext(packet: Packet, nowMs: nat) returns (result: PushResult)
      requires Valid() && spec.InOrder? && packet.mode.Sequenced?
      modifies this, packets, occupied
      ensures Valid() && (spec, result) == (InOrder(PushInOrder(old(spec).play, packet).0),
                                            PushInOrder(old(spec).play, packet).1)
      ensures result != PushOk ==> unchanged(this) && unchanged(packets) && unchanged(occupied)
    {
      ghost var p := spec.play;
      JitterRuns.PushKeepsInv(p, packet);
      result := PushSequenced(packet, p);
      if result == PushOk {
        Admit(packet, nowMs, InOrder(PushInOrder(p, packet).0));
      }
    }

    method PushToSequenced(packet: Packet, nowMs: nat) returns (result: PushResult)
      requires Valid() && !spec.Arrival? && packet.mode.Sequenced? && 0 < |packet.data| <= MAX_PACKET_SIZE
      modifies this, packets, occupied
      ensures Valid()
      ensures (spec, result) == JitterSpec.Push(old(spec), packet, nowMs)
      ensures result != PushOk ==> unchanged(this) && unchanged(packets) && unchanged(occupied)
    {
      if !sequenceSet {
        PushFirst(packet, nowMs);
        result := PushOk;
      } else {
        result := PushNext(packet, nowMs);
      }
    }

    /** audio_packet_store_push. */
    method Push(packet: Packet, nowMs: nat) returns (result: PushResult)
      requires Valid()
      modifies this, packets, occupied
      ensures Valid()
      ensures (spec, result) == JitterSpec.Push(old(spec), packet, nowMs)
      ensures result != PushOk ==> unchanged(this) && unchanged(packets) && unchanged(occupied)
    {
      if packet.mode.UnknownMode? {
        return InvalidArgument;
      }
      if |packet.data| == 0 || |packet.data| > MAX_PACKET_SIZE {
        return InvalidLength;
      }
      if modeSet && mode != packet.mode {
        return ModeMismatch;
      }
      if packet.mode == ArrivalOrder {
        result := PushToArrival(packet, nowMs);
      } else {
        result := PushToSequenced(packet, nowMs);
      }
    }

    /** pop_arrival. */
    method PopArrival(ghost queue: seq<Packet>) returns (result: PopResult)
      requires Shape() && ArrivalIs(queue) && depth == |queue| <= CAPACITY
      modifies this`arrivalHead, this`depth, this`dtxIdle, this`consecutiveEmptyMissing, this`sequenceUncertain
      modifies occupied
      ensures if queue == [] then
          result == (if old(dtxIdle) then DtxIdle else Missing) && unchanged(this)
        else
          && result == Played(queue[0]) && ArrivalIs(queue[1..])
          && depth == |queue| - 1 && dtxIdle == !queue[0].active
    {
      if depth == 0 {
        return if dtxIdle then DtxIdle else Missing;
      }
      var current := packets[arrivalHead];
      ghost var head, next := arrivalHead, (arrivalHead + 1) % 16;
      forall k: nat
        ensures Ring16(next, k) == Ring16(head, k + 1)
      {
        Ring16Step(head, k);
      }
      occupied[arrivalHead] := false;
      arrivalHead := (arrivalHead + 1) % CAPACITY;
      depth := depth - 1;
      dtxIdle := !current.active;
      consecutiveEmptyMissing := 0;
      sequenceUncertain := false;
      result := Played(current);
    }

    /** advance_sequence. */
    method AdvanceSequence(delivered: bool, ghost p: Play, ghost after: seq<(int, Packet)>)
      requires expectedSequence == p.next % 0x1_0000 && p.floor <= p.next
      requires HistoryOk(deliveredHistory, p.next, p.floor, p.delivered)
      requires if delivered then exists k :: after == p.delivered + [(p.next, k)] else after == p.delivered
      requires forall i :: 0 <= i < |p.delivered| ==> p.delivered[i].0 < p.next
      modifies this`expectedSequence, this`deliveredHistory
      ensures expectedSequence == (p.next + 1) % 0x1_0000
      ensures HistoryOk(deliveredHistory, p.next + 1, p.floor, after)
    {
      HistoryAdvances(deliveredHistory, p.next, p.floor, p.delivered, delivered, after);
      deliveredHistory := Shifted(deliveredHistory, delivered);
      expectedSequence := (expectedSequence + 1) % 0x1_0000;
    }

    /** The branch of pop_sequenced that hands out the packet in `slot`. */
    method Deliver(slot: nat, ghost p: Play) returns (current: Packet)
      requires Shape() && SequencedIs(p) && WindowOk(p) && p.floor <= p.next && depth == |p.window|
      requires forall i :: 0 <= i < |p.delivered| ==> p.delivered[i].0 < p.next
      requires p.next in p.window && slot == p.next % CAPACITY
      modifies this`expectedSequence, this`deliveredHistory, this`sequenceUncertain, this`dtxIdle,
        this`consecutiveEmptyMissing, this`depth, occupied
      ensures var (q, r) := PopInOrder(p);
        r == Played(current) && SequencedIs(q) && depth == |q.window|
    {
      ghost var q := PopInOrder(p).0;
      HoldsAt(packets[..], occupied[..], p.window, p.next, p.next, slot);
      HoldsRemove(packets[..], occupied[..], p.window, p.next, p.next, slot);
      current := packets[slot];
      occupied[slot] := false;
      depth := depth - 1;
      dtxIdle := !current.active;
      consecutiveEmptyMissing := 0;
      sequenceUncertain := false;
      AdvanceSequence(true, p, q.delivered);
      HoldsFrom(packets[..], occupied[..], q.window, p.next, q.next);
    }

    /** pop_sequenced. */
    method PopSequenced(ghost p: Play) returns (result: PopResult)
      requires Shape() && SequencedIs(p) && WindowOk(p) && p.floor <= p.next && depth == |p.window|
      requires forall i :: 0 <= i < |p.delivered| ==> p.delivered[i].0 < p.next
      requires p.uncertain ==> p.window == map[]
      modifies this`expectedSequence, this`deliveredHistory, this`sequenceUncertain, this`dtxIdle,
        this`consecutiveEmptyMissing, this`depth, occupied
      ensures var (q, r) := PopInOrder(p);
        result == r && SequencedIs(q) && depth == |q.window|
    {
      ghost var q := PopInOrder(p).0;
      var slot := expectedSequence % CAPACITY;
      WrapSlot(p.next);
      HoldsAt(packets[..], occupied[..], p.window, p.next, p.next, slot);
      if occupied[slot] && packets[slot].sequence == expectedSequence {
        var current := Deliver(slot, p);
        return Played(current);
      }
      if dtxIdle && depth == 0 {
        return DtxIdle;
      }
      if depth == 0 {
        consecutiveEmptyMissing := consecutiveEmptyMissing + 1;
      } else {
        consecutiveEmptyMissing := 0;
        sequenceUncertain := false;
      }
      AdvanceSequence(false, p, q.delivered);
      HoldsFrom(packets[..], occupied[..], p.window, p.next, q.next);
      if consecutiveEmptyMissing >= EMPTY_MISSING_LIMIT {
        dtxIdle := true;
        sequenceUncertain := true;
      }
      result := Missing;
    }

    /** Whether the frame that is due is at hand. */
    method IsReady(ghost s: Store) returns (ready: bool)
      requires Shape() && !s.Empty? && FieldsAre(s) && StoreInv(s)
      ensures ready == Ready(s)
    {
      if mode == ArrivalOrder {
        ready := depth > 0;
      } else {
        var slot := expectedSequence % CAPACITY;
        WrapSlot(s.play.next);
        HoldsAt(packets[..], occupied[..], s.play.window, s.play.next, s.play.next, slot);
        ready := occupied[slot] && packets[slot].sequence == expectedSequence;
      }
    }

    /** The prefill gate of audio_packet_store_pop; nothing is due while it stays closed. */
    method OpenGate(nowMs: nat, ghost s: Store) returns (open: bool)
      requires Shape() && !s.Empty? && FieldsAre(s)
      modifies this`playoutStarted, this`nextDeadlineMs
      ensures var c := Start(ClockOf(s), Depth(s), nowMs);
        open == c.started && FieldsAre(WithClock(s, c))
    {
      if !playoutStarted {
        if depth < PREFILL_PACKETS && nowMs < prefillDeadlineMs {
          assert WithClock(s, ClockOf(s)) == s;
          return false;
        }
        playoutStarted := true;
        nextDeadlineMs := nowMs;
      }
      open := true;
    }

    method StepDeadline(ghost s: Store)
      requires Shape() && !s.Empty? && FieldsAre(s)
      modifies this`nextDeadlineMs
      ensures FieldsAre(WithClock(s, Tick(ClockOf(s))))
      ensures nextDeadlineMs == old(nextDeadlineMs) + FRAME_MS
    {
      nextDeadlineMs := nextDeadlineMs + FRAME_MS;
    }

    /** The dispatch at the end of audio_packet_store_pop, for arrival order. */
    method PopNowArrival(ghost s: Store) returns (result: PopResult)
      requires Shape() && s.Arrival? && FieldsAre(s) && StoreInv(s)
      modifies this`arrivalHead, this`depth, this`dtxIdle, this`consecutiveEmptyMissing, this`sequenceUncertain
      modifies occupied
      ensures result == PopDue(s).1 && FieldsAre(PopDue(s).0)
    {
      result := PopArrival(s.queue);
    }

    /** The same for a sequenced store. */
    method PopNowSequenced(ghost s: Store) returns (result: PopResult)
      requires Shape() && s.InOrder? && FieldsAre(s) && StoreInv(s)
      modifies this`expectedSequence, this`deliveredHistory, this`sequenceUncertain, this`dtxIdle,
        this`consecutiveEmptyMissing, this`depth, occupied
      ensures result == PopDue(s).1 && FieldsAre(PopDue(s).0)
    {
      result := PopSequenced(s.play);
    }

    /** A pop that is due: the deadline moves on and the frame, if there is one, goes out. */
    method PopDueFrame(ghost s: Store) returns (result: PopResult)
      requires Shape() && !s.Empty? && FieldsAre(s) && StoreInv(WithClock(s, Tick(ClockOf(s))))
      modifies this`nextDeadlineMs, this`arrivalHead, this`expectedSequence, this`deliveredHistory,
        this`sequenceUncertain, this`dtxIdle, this`consecutiveEmptyMissing, this`depth, occupied
      ensures var (s', r) := PopDue(WithClock(s, Tick(ClockOf(s))));
        result == r && FieldsAre(s')
    {
      StepDeadline(s);
      if mode == ArrivalOrder {
        result := PopNowArrival(WithClock(s, Tick(ClockOf(s))));
      } else {
        result := PopNowSequenced(WithClock(s, Tick(ClockOf(s))));
      }
    }

    /** audio_packet_store_pop once playout has started. */
    method PopStarted(nowMs: nat) returns (result: PopResult)
      requires Valid() && !spec.Empty? && ClockOf(spec).started
      modifies this, occupied
      ensures Valid()
      ensures (spec, result) == JitterSpec.Pop(old(spec), nowMs)
    {
      JitterRuns.ApplyKeepsInv(spec, JitterRuns.PopOp(nowMs));
      ClockKeepsInv(spec, Tick(ClockOf(spec)));
      var ready := IsReady(spec);
      if !ready && nowMs < nextDeadlineMs + LATE_GRACE_MS {
        assert WithClock(spec, ClockOf(spec)) == spec;
        return NotDue;
      }
      result := PopDueFrame(spec);
      spec := PopDue(WithClock(spec, Tick(ClockOf(spec)))).0;
    }

    /** audio_packet_store_pop. */
    method Pop(nowMs: nat) returns (result: PopResult)
      requires Valid()
      modifies this, occupied
      ensures Valid()
      ensures (spec, result) == JitterSpec.Pop(old(spec), nowMs)
    {
      if !modeSet {
        return NotDue;
      }
      ghost var c := Start(ClockOf(spec), Depth(spec), nowMs);
      ClockKeepsInv(spec, c);
      var open := OpenGate(nowMs, spec);
      spec := WithClock(spec, c);
      if !open {
        return NotDue;
      }
      result := PopStarted(nowMs);
    }
  }
}
