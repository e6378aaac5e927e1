/**
  The nRF slot transmitter as the firmware keeps it: two sixteen-entry rings with head and
  tail indices, a contention flag and a deferral record. Every method is proved to act as
  the queue steps of module SlotSpec.
  */
module SlotTransmitter {
  import opened Common
  import opened Rings
  import opened AudioBundle
  import opened Airtime
  import opened SlotSpec

  /**
    The strip loop of both transmit paths over a scratch copy of the bundle. With `retainPrev1`
    it gives up before the last frame would be stripped.
    */
  method StripForSlot(data: seq<Byte>, b: Bundle, stripsNeeded: nat, retainPrev1: bool)
    returns (bytes: Option<seq<Byte>>)
    requires FieldsValid(b) && data == Encode(b) && stripsNeeded <= Predecessors(b)
    ensures bytes == if retainPrev1 && stripsNeeded > (if b.previous2 != [] then 1 else 0) then None
                     else Some(Encode(StripN(b, stripsNeeded)))
  {
    var bundleData := new Byte[|data|](i requires 0 <= i < |data| => data[i]);
    var bundleLen: nat := |data|;
    assert bundleData[..bundleLen] == data;
    var prev2Forwarded := b.previous2 != [];
    for i := 0 to stripsNeeded
      invariant prev2Forwarded == (b.previous2 != [] && i == 0)
      invariant retainPrev1 ==> i <= (if b.previous2 != [] then 1 else 0)
      invariant bundleLen <= bundleData.Length && bundleData[..bundleLen] == Encode(StripN(b, i))
    {
      if !prev2Forwarded && retainPrev1 {
        return None;
      }
      ParseEncode(StripN(b, i));
      var ok: bool;
      ok, bundleLen := StripOldest(bundleData, bundleLen);
      assert ok;
      prev2Forwarded := false;
    }
    bytes := Some(bundleData[..bundleLen]);
  }

  /** transmit_local_entry. */
  method TransmitLocalEntry(entry: Entry, nodeId: Byte, retainPrev1: bool, radio: Radio) returns (attempt: Attempt)
    ensures attempt == LocalAttempt(entry, nodeId, retainPrev1, radio)
  {
    if entry.packetType == PKT_AUDIO_V2 {
      var parsed := Parse(entry.data);
      if parsed.None? {
        return Attempt(Failed, PKT_AUDIO_V2, None);
      }
      var b := parsed.value;
      EncodeParse(entry.data);
      var strips := ChooseStrips(MESH_HEADER + |entry.data|, b, radio.remainingUs);
      var stripsNeeded := if strips.Some? then strips.value else Predecessors(b);
      var bundleData := StripForSlot(entry.data, b, stripsNeeded, retainPrev1);
      if bundleData.None? {
        return Attempt(FallbackOriginal, PKT_AUDIO_V2, None);
      }
      if strips.None? {
        return Attempt(Failed, PKT_AUDIO_V2, None);
      }
      return Attempt(if radio.accepts then Success else Failed, PKT_AUDIO_V2, bundleData);
    }
    if retainPrev1 {
      return Attempt(FallbackOriginal, entry.packetType, None);
    }
    var payload := [CODEC_OPUS, FRAME_MS, nodeId, entry.audioFlags] + entry.data;
    attempt := Attempt(if radio.accepts then Success else Failed, PKT_AUDIO, Some(payload));
  }

  /** The packet transmit_relay_entry hands to the radio. */
  method BuildRelayPacket(queued: seq<Byte>, remainingUs: nat) returns (packet: Option<seq<Byte>>)
    ensures packet == RelayPacket(queued, remainingUs)
  {
    if |queued| < MESH_HEADER || |queued| > MAX_OUTER {
      return None;
    }
    if !RelayV2(queued) {
      return Some(queued);
    }
    if (queued[6] as int) + (queued[7] as int) * 256 != |queued| - MESH_HEADER {
      return None;
    }
    var payload := queued[MESH_HEADER..];
    var parsed := Parse(payload);
    if parsed.None? {
      return None;
    }
    var b := parsed.value;
    EncodeParse(payload);
    var strips := ChooseStrips(|queued|, b, remainingUs);
    match strips
    case None => return None;
    case Some(k) =>
      if k == 0 {
        return Some(queued);
      }
      var bytes := StripForSlot(payload, b, k, false);
      return Some(Resized(queued[..MESH_HEADER], |bytes.value|) + bytes.value);
  }

  class Transmitter {
    const txRing: array<Entry>
    var txHead: nat
    var txTail: nat
    const relayRing: array<seq<Byte>>
    var relayHead: nat
    var relayTail: nat
    var relayContentionTurn: bool
    var localDeferredPending: bool
    var localDeferredSeq: Word

    /** The queues of SlotSpec that these fields stand for, and everything ever attempted. */
    ghost var spec: Tx
    ghost var log: seq<Event>

    ghost predicate LocalIs(queue: seq<Entry>)
      reads this`txHead, this`txTail, txRing
    {
      RingIs(txRing[..], txHead, txTail, queue)
    }

    ghost predicate RelayIs(queue: seq<seq<Byte>>)
      reads this`relayHead, this`relayTail, relayRing
    {
      RingIs(relayRing[..], relayHead, relayTail, queue)
    }

    ghost predicate DeferralIs(deferred: Option<Word>)
      reads this`localDeferredPending, this`localDeferredSeq
    {
      localDeferredPending == deferred.Some? && (deferred.Some? ==> localDeferredSeq == deferred.value)
    }

    ghost predicate Valid()
      reads this, txRing, relayRing
    {
      LocalIs(spec.local) && RelayIs(spec.relay) && relayContentionTurn == spec.turn && DeferralIs(spec.deferred)
    }

    constructor (blank: Entry)
      ensures Valid() && spec == Tx([], [], false, None) && log == []
      ensures fresh(txRing) && fresh(relayRing)
    {
      txRing := new Entry[SLOTS](_ => blank);
      relayRing := new seq<Byte>[SLOTS](_ => []);
      txHead, txTail, relayHead, relayTail := 0, 0, 0, 0;
      relayContentionTurn, localDeferredPending, localDeferredSeq := false, false, 0;
      spec, log := Tx([], [], false, None), [];
    }

    /** The ring write at the end of process_audio_ingress: full means drop the oldest. */
    method Ingress(entry: Entry)
      requires Valid()
      modifies this, txRing
      ensures Valid() && spec == Enqueued(old(spec), entry) && log == old(log)
    {
      var nextHead := (txHead + 1) % SLOTS;
      ghost var queue := spec.local;
      RingCount(txRing[..], txHead, txTail, queue);
      if nextHead == txTail {
        RingPop(txRing[..], txHead, txTail, queue);
        queue := queue[1..];
        txTail := (txTail + 1) % SLOTS;
        localDeferredPending := false;
        localDeferredSeq := 0;
      }
      RingPush(txRing[..], txHead, txTail, queue, entry);
      txRing[txHead] := entry;
      txHead := nextHead;
      spec := Enqueued(spec, entry);
    }

    /** enqueue_relay_packet: the ring keeps the newest fifteen packets; what is not relayable is refused. */
    method EnqueueRelay(data: seq<Byte>, ttl: Byte, flags: Byte) returns (ok: bool)
      requires Valid()
      modifies this, relayRing
      ensures Valid() && log == old(log) && ok == (ttl != 0 && 8 <= |data| <= 208)
      ensures spec == if ok then RelayEnqueued(old(spec), Rewritten(data, ttl, flags)) else old(spec)
      ensures !ok ==> unchanged(this) && unchanged(relayRing)
    {
      if ttl == 0 || |data| < MESH_HEADER || |data| > MAX_OUTER {
        return false;
      }
      WriteRelay(Rewritten(data, ttl, flags));
      ok := true;
    }

    /** Its ring write. */
    method WriteRelay(packet: seq<Byte>)
      requires Valid()
      modifies this, relayRing
      ensures Valid() && spec == RelayEnqueued(old(spec), packet) && log == old(log)
    {
      var nextHead := (relayHead + 1) % SLOTS;
      ghost var queue := spec.relay;
      RingCount(relayRing[..], relayHead, relayTail, queue);
      if nextHead == relayTail {
        RingPop(relayRing[..], relayHead, relayTail, queue);
        queue := queue[1..];
        relayTail := (relayTail + 1) % SLOTS;
      }
      RingPush(relayRing[..], relayHead, relayTail, queue, packet);
      relayRing[relayHead] := packet;
      relayHead := nextHead;
      spec := RelayEnqueued(spec, packet);
    }

    /** local_tail_is_active_v2. */
    method LocalTailIsActive() returns (sequence: Option<Word>)
      requires Valid() && spec.local != []
      ensures sequence == ActiveBundle(spec.local[0])
    {
      RingPop(txRing[..], txHead, txTail, spec.local);
      var entry := txRing[txTail];
      if entry.packetType != PKT_AUDIO_V2 {
        return None;
      }
      var parsed := Parse(entry.data);
      if parsed.None? || !CurrentActive(parsed.value.flags) {
        return None;
      }
      return Some(parsed.value.sequence);
    }

    /** The entry behind the tail. */
    method Successor() returns (entry: Entry)
      requires Valid() && |spec.local| >= 2
      ensures entry == spec.local[1]
    {
      RingPop(txRing[..], txHead, txTail, spec.local);
      RingPop(txRing[..], txHead, (txTail + 1) % SLOTS, spec.local[1..]);
      entry := txRing[(txTail + 1) % SLOTS];
    }

    /** deferred_tail_has_proven_successor. */
    method DeferredTailHasProvenSuccessor() returns (proven: bool)
      requires Valid()
      ensures proven == ProvenSuccessor(spec)
    {
      RingCount(txRing[..], txHead, txTail, spec.local);
      var depth := if txHead >= txTail then txHead - txTail else SLOTS - txTail + txHead;
      if !localDeferredPending || depth < 2 {
        return false;
      }
      RingPop(txRing[..], txHead, txTail, spec.local);
      var tail := txRing[txTail];
      var successor := Successor();
      if tail.packetType != PKT_AUDIO_V2 || successor.packetType != PKT_AUDIO_V2 {
        return false;
      }
      var tailBundle, successorBundle := Parse(tail.data), Parse(successor.data);
      if tailBundle.None? || successorBundle.None? {
        return false;
      }
      proven := SuccessorCarries(localDeferredSeq, tailBundle.value, successorBundle.value);
    }

    /** transmit_relay_entry: the tail leaves the ring whatever the radio says. */
    method TransmitRelayEntry(radio: Radio)
      requires Valid() && spec.relay != []
      modifies this
      ensures Valid() && spec == old(spec).(relay := old(spec).relay[1..])
      ensures log == old(log) + [RelayTry(old(spec).relay[0], RelayPacket(old(spec).relay[0], radio.remainingUs))]
    {
      RingPop(relayRing[..], relayHead, relayTail, spec.relay);
      var queued := relayRing[relayTail];
      var packet := BuildRelayPacket(queued, radio.remainingUs);
      log := log + [RelayTry(queued, packet)];
      relayTail := (relayTail + 1) % SLOTS;
      spec := spec.(relay := spec.relay[1..]);
    }

    /** consume_local_audio_entries for a single entry. */
    method ConsumeOne()
      requires Valid() && spec.local != []
      modifies this
      ensures Valid() && spec == old(spec).(local := old(spec).local[1..]) && log == old(log)
    {
      RingPop(txRing[..], txHead, txTail, spec.local);
      txTail := (txTail + 1) % SLOTS;
      spec := spec.(local := spec.local[1..]);
    }

    /** The local branch of slot_tx_handler when the tail itself is transmitted. */
    method ServeTail(input: SlotInput)
      requires Valid() && spec.local != []
      modifies this
      ensures Valid()
      ensures (spec, log) == (TailService(old(spec), input).0, old(log) + TailService(old(spec), input).1)
    {
      RingCount(relayRing[..], relayHead, relayTail, spec.relay);
      RingPop(txRing[..], txHead, txTail, spec.local);
      var relayPending := relayHead != relayTail;
      var entry := txRing[txTail];
      var attempt := TransmitLocalEntry(entry, input.nodeId, false, input.local);
      log := log + [LocalTry(entry, attempt, input.local)];
      if relayPending && !relayContentionTurn {
        relayContentionTurn := true;
      }
      spec := spec.(turn := relayContentionTurn);
      ConsumeOne();
    }

    /** The attempt to send the successor in place of a deferred tail it provably carries. */
    method ServeSuccessor(input: SlotInput) returns (outcome: Outcome)
      requires Valid() && |spec.local| >= 2 && spec.deferred == None
      modifies this
      ensures Valid()
      ensures var s := old(spec);
        var a := LocalAttempt(s.local[1], input.nodeId, true, input.successor);
        && outcome == a.outcome && log == old(log) + [LocalTry(s.local[1], a, input.successor)]
        && spec == match a.outcome
                   case Success => s.(local := s.local[2..], turn := s.turn || s.relay != [])
                   case Failed => s.(turn := false)
                   case FallbackOriginal => s
    {
      RingCount(relayRing[..], relayHead, relayTail, spec.relay);
      var relayPending := relayHead != relayTail;
      var entry := Successor();
      var attempt := TransmitLocalEntry(entry, input.nodeId, true, input.successor);
      outcome := attempt.outcome;
      log := log + [LocalTry(entry, attempt, input.successor)];
      if outcome == Success {
        ConsumeOne();
        ConsumeOne();
        if relayPending {
          relayContentionTurn := true;
        }
      } else if outcome == Failed {
        relayContentionTurn := false;
      }
      spec := spec.(turn := relayContentionTurn);
    }

    /** The local branch of slot_tx_handler. */
    method ServeLocal(input: SlotInput)
      requires Valid() && spec.local != [] && input.active
      requires !(spec.relay != [] && spec.turn && ActiveBundle(spec.local[0]).Some?)
      modifies this
      ensures Valid()
      ensures (spec, log) == (SlotStep(old(spec), input).0, old(log) + SlotStep(old(spec), input).1)
    {
      var provenSuccessor := DeferredTailHasProvenSuccessor();
      localDeferredPending := false;
      localDeferredSeq := 0;
      spec := spec.(deferred := None);
      if provenSuccessor {
        ghost var before, entry := log, spec.local[1];
        ghost var a := LocalAttempt(entry, input.nodeId, true, input.successor);
        ghost var tried := LocalTry(entry, a, input.successor);
        var outcome := ServeSuccessor(input);
        if outcome != FallbackOriginal {
          return;
        }
        ghost var events := TailService(spec, input).1;
        assert before + [tried] + events == before + ([tried] + events);
      }
      ServeTail(input);
    }

    /** slot_tx_handler. */
    method SlotTxHandler(input: SlotInput)
      requires Valid()
      modifies this
      ensures Valid()
      ensures (spec, log) == (SlotStep(old(spec), input).0, old(log) + SlotStep(old(spec), input).1)
    {
      RingCount(txRing[..], txHead, txTail, spec.local);
      RingCount(relayRing[..], relayHead, relayTail, spec.relay);
      var localPending := input.active && txHead != txTail;
      var relayPending := relayHead != relayTail;
      var deferredSeq: Option<Word> := None;
      if localPending && relayPending && relayContentionTurn {
        deferredSeq := LocalTailIsActive();
      }
      if deferredSeq.Some? {
        localDeferredPending := true;
        localDeferredSeq := deferredSeq.value;
        relayContentionTurn := false;
        spec := spec.(deferred := deferredSeq, turn := false);
        TransmitRelayEntry(input.relay);
      } else if localPending {
        ServeLocal(input);
      } else if relayPending {
        TransmitRelayEntry(input.relay);
        relayContentionTurn := false;
        spec := spec.(turn := false);
      } else {
        assert log + [] == log;
      }
    }
  }
}
