/**
  What becomes of every local frame over a whole run of arrivals and slots.
  */
module SlotLedger {
  import opened Common
  import opened AudioBundle
  import opened SlotSpec
  import opened SlotRuns

  /**
    The end of a frame: the transmission in the log that attempted it, the one in the log that carried it along, or
    the arrival, by its number, that pushed it out of the ring.
    */
  datatype Fate = Attempted(at: nat) | Carried(at: nat) | Dropped(arrival: nat)

  /** The queues, every frame ever enqueued, every transmission, and the fates of the frames that are gone. */
  datatype Ledger = Ledger(tx: Tx, enqueued: seq<Entry>, log: seq<Event>, fates: seq<Fate>)

  const EMPTY := Ledger(Tx([], [], false, None), [], [], [])

  datatype Op = Arrive(entry: Entry) | ArriveRelay(packet: seq<Byte>) | Slot(input: SlotInput)

  /** The fates that a slot seals: by the number of entries it took off the queue. */
  function Sealed(removed: int, log: seq<Event>, events: seq<Event>): seq<Fate>
    requires removed > 0 ==> events != []
  {
    if removed == 1 then [Attempted(|log| + |events| - 1)]
    else if removed == 2 then [Carried(|log|), Attempted(|log|)]
    else []
  }

  /** A slot that takes one entry off the queue attempts it last. */
  lemma HeadTriedLast(s: Tx, input: SlotInput)
    requires s.local != [] && SlotStep(s, input).0.local == s.local[1..]
    ensures var events := SlotStep(s, input).1;
      events != [] && events[|events| - 1].LocalTry? && events[|events| - 1].entry == s.local[0]
  {
    assert |s.local[1..]| == |s.local| - 1;
  }

  lemma SlotRemoves(s: Tx, input: SlotInput)
    ensures var (t, events) := SlotStep(s, input);
      var removed := |s.local| - |t.local|;
      && 0 <= removed <= 2 && t.local == s.local[removed..] && (removed > 0 ==> events != [])
      && (removed == 1 ==> events[|events| - 1].LocalTry? && events[|events| - 1].entry == s.local[0])
      && (removed == 2 ==> HeadSkipped(s, t, events))
  {
    var (t, events) := SlotStep(s, input);
    SlotAccountsForEveryFrame(s, input);
    if HeadAttempted(s, t, events) {
      HeadTriedLast(s, input);
    }
  }

  function Apply(l: Ledger, op: Op): Ledger {
    match op
    case Arrive(e) =>
      l.(tx := Enqueued(l.tx, e), enqueued := l.enqueued + [e],
         fates := if |l.tx.local| == QUEUE_ROOM then l.fates + [Dropped(|l.enqueued|)] else l.fates)
    case ArriveRelay(packet) => l.(tx := RelayEnqueued(l.tx, packet))
    case Slot(input) =>
      var (t, events) := SlotStep(l.tx, input);
      SlotRemoves(l.tx, input);
      Ledger(t, l.enqueued, l.log + events, l.fates + Sealed(|l.tx.local| - |t.local|, l.log, events))
  }

  function Run(ops: seq<Op>): Ledger {
    if ops == [] then EMPTY else Apply(Run(ops[..|ops| - 1]), ops[|ops| - 1])
  }

  /** Frame i was attempted itself, or its successor was sent and delivers it, or the ring held fifteen newer ones. */
  ghost predicate Justified(l: Ledger, i: nat, fate: Fate)
    requires i < |l.enqueued|
  {
    match fate
    case Attempted(at) => at < |l.log| && l.log[at].LocalTry? && l.log[at].entry == l.enqueued[i]
    case Carried(at) =>
      && at < |l.log| && l.log[at].LocalTry? && i + 1 < |l.enqueued| && l.log[at].entry == l.enqueued[i + 1]
      && l.log[at].attempt.outcome == Success && l.log[at].radio.accepts && l.log[at].attempt.payload.Some?
      && Delivers(l.log[at].attempt.payload.value, l.enqueued[i])
    case Dropped(arrival) => arrival == i + QUEUE_ROOM < |l.enqueued|
  }

  /** The frames enqueued are, in order, those with a fate and those still queued. */
  ghost predicate Balanced(l: Ledger) {
    && |l.fates| <= |l.enqueued| && l.tx.local == l.enqueued[|l.fates|..] && |l.tx.local| <= QUEUE_ROOM
    && forall i :: 0 <= i < |l.fates| ==> Justified(l, i, l.fates[i])
  }

  /** What justified a fate goes on justifying it. */
  lemma StaysJustified(l: Ledger, after: Ledger, i: nat, fate: Fate)
    requires i < |l.enqueued| && Justified(l, i, fate) && l.enqueued <= after.enqueued && l.log <= after.log
    ensures Justified(after, i, fate)
  {
  }

  lemma ArriveBalances(l: Ledger, e: Entry)
    requires Balanced(l)
    ensures Balanced(Apply(l, Arrive(e)))
  {
    var after := Apply(l, Arrive(e));
    assert l.enqueued <= after.enqueued;
    forall i | 0 <= i < |l.fates|
      ensures Justified(after, i, after.fates[i])
    {
      StaysJustified(l, after, i, l.fates[i]);
    }
    assert after.tx.local == after.enqueued[|after.fates|..];
  }

  /** The fates of a slot that took one or two entries off the queue. */
  lemma SealedJustified(l: Ledger, after: Ledger, events: seq<Event>, removed: nat)
    requires |l.fates| + removed <= |l.enqueued| && l.tx.local == l.enqueued[|l.fates|..]
    requires after.enqueued == l.enqueued && after.log == l.log + events && removed <= 2
    requires removed > 0 ==> events != []
    requires removed == 1 ==> events[|events| - 1].LocalTry? && events[|events| - 1].entry == l.tx.local[0]
    requires removed == 2 ==> HeadSkipped(l.tx, after.tx, events)
    ensures |Sealed(removed, l.log, events)| == removed
    ensures forall k :: 0 <= k < removed ==> Justified(after, |l.fates| + k, Sealed(removed, l.log, events)[k])
  {
    assert forall k :: 0 <= k < |events| ==> after.log[|l.log| + k] == events[k];
    if removed == 2 {
      assert l.tx.local[0] == l.enqueued[|l.fates|] && l.tx.local[1] == l.enqueued[|l.fates| + 1];
      assert after.log[|l.log|] == events[0];
    }
  }

  lemma SealBalances(l: Ledger, after: Ledger, fates: seq<Fate>)
    requires Balanced(l) && after.enqueued == l.enqueued && l.log <= after.log && after.fates == l.fates + fates
    requires |fates| <= |l.tx.local| && after.tx.local == l.tx.local[|fates|..]
    requires forall k :: 0 <= k < |fates| ==> Justified(after, |l.fates| + k, fates[k])
    ensures Balanced(after)
  {
    forall i | 0 <= i < |after.fates|
      ensures Justified(after, i, after.fates[i])
    {
      if i < |l.fates| {
        StaysJustified(l, after, i, l.fates[i]);
      } else {
        assert after.fates[i] == fates[i - |l.fates|];
      }
    }
  }

  lemma SlotBalances(l: Ledger, input: SlotInput)
    requires Balanced(l)
    ensures Balanced(Apply(l, Slot(input)))
  {
    var after, events := Apply(l, Slot(input)), SlotStep(l.tx, input).1;
    SlotRemoves(l.tx, input);
    var removed := |l.tx.local| - |after.tx.local|;
    SealedJustified(l, after, events, removed);
    SealBalances(l, after, Sealed(removed, l.log, events));
  }

  /**
    Over every run each frame ever enqueued is still queued, or was attempted itself, or was delivered by its
    accepted successor, or was dropped as the oldest of a full ring; and they leave in the order they came.
    */
  lemma {:induction false} EveryFrameAccounted(ops: seq<Op>)
    ensures Balanced(Run(ops))
  {
    if ops != [] {
      var l, op := Run(ops[..|ops| - 1]), ops[|ops| - 1];
      EveryFrameAccounted(ops[..|ops| - 1]);
      match op
      case Arrive(e) => ArriveBalances(l, e);
      case ArriveRelay(packet) =>
        forall i | 0 <= i < |l.fates|
          ensures Justified(Apply(l, op), i, l.fates[i])
        {
          StaysJustified(l, Apply(l, op), i, l.fates[i]);
        }
      case Slot(input) => SlotBalances(l, input);
    }
  }
}
