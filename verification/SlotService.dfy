/**
  What a slot does for the frames it serves: when something is handed to the radio and what its verdict leads to, for
  local frames, their successors and relayed packets.
  */
module SlotService {
  import opened Common
  import opened AudioBundle
  import opened Airtime
  import opened SlotSpec
  import opened SlotRuns

  /** An entry that holds a valid bundle. */
  predicate IsBundle(e: Entry, b: Bundle) { e.packetType == 0x0D && FieldsValid(b) && e.data == Encode(b) }

  /** One of at most k strips makes the bundle fit the time left. */
  ghost predicate FitsWithin(b: Bundle, k: nat, remainingUs: nat)
    requires FieldsValid(b) && k <= Predecessors(b)
  {
    exists j :: 0 <= j <= k && Fits(remainingUs, OuterLen(b, j))
  }

  /** The strips allowed: all older frames, or, when the last frame must be retained, only the one before it. */
  function Strippable(b: Bundle, retain: bool): (k: nat)
    ensures FieldsValid(b) ==> k <= Predecessors(b)
  {
    if retain then (if b.previous2 != [] then 1 else 0) else Predecessors(b)
  }

  /** On the air a packet takes 129 us and 4 us for each of its bytes and of 11 more; 100 us must be to spare. */
  lemma FitsInTime(remainingUs: nat, outer: nat)
    ensures Fits(remainingUs, outer) <==> remainingUs >= 4 * outer + 273
  {
  }

  // -------------------------------------------------------------- attempts

  /** An attempt succeeds exactly if something was handed to the radio and the radio took it. */
  lemma AttemptOutcome(e: Entry, nodeId: Byte, retain: bool, radio: Radio)
    ensures var a := LocalAttempt(e, nodeId, retain, radio);
      && (a.outcome == Success <==> a.payload.Some? && radio.accepts)
      && (a.outcome == FallbackOriginal ==> a.payload.None? && retain)
      && (a.outcome == Failed && a.payload.Some? ==> !radio.accepts)
  {
  }

  /**
    A bundle is handed over exactly if an allowed number of strips makes it fit, and with the fewest such strips. Only
    one that must retain its last frame and cannot falls back to the frame it was to replace.
    */
  lemma BundleAttempt(e: Entry, b: Bundle, nodeId: Byte, retain: bool, radio: Radio)
    requires IsBundle(e, b)
    ensures var a := LocalAttempt(e, nodeId, retain, radio);
      && (a.payload.Some? <==> FitsWithin(b, Strippable(b, retain), radio.remainingUs))
      && (a.payload.Some? ==> BestFit(a.payload.value, b, radio.remainingUs) && a.packetType == 0x0D)
      && (Fits(radio.remainingUs, 8 + |e.data|) ==> a.payload == Some(e.data))
      && (a.outcome == FallbackOriginal <==> a.payload.None? && retain && b.previous1 != [])
  {
    ParseEncode(b);
    var strips := Strips(b, radio.remainingUs);
    assert FewestStrips(b, radio.remainingUs, strips);
    assert OuterLen(b, 0) == 8 + |e.data|;
    if strips.Some? && strips.value <= Strippable(b, retain) {
      assert Fits(radio.remainingUs, OuterLen(b, strips.value));
    }
  }

  /** A plain frame goes out behind its four-byte audio header, but never in place of another. */
  lemma PlainAttempt(e: Entry, nodeId: Byte, retain: bool, radio: Radio)
    requires e.packetType != 0x0D
    ensures var a := LocalAttempt(e, nodeId, retain, radio);
      if retain then a.outcome == FallbackOriginal
      else a.packetType == 0x01 && a.payload == Some([1, 20, nodeId, e.audioFlags] + e.data)
  {
  }

  /** What is no valid bundle fails without being sent. */
  lemma GarbledAttempt(e: Entry, nodeId: Byte, retain: bool, radio: Radio)
    requires e.packetType == 0x0D && forall b :: !IsBundle(e, b)
    ensures LocalAttempt(e, nodeId, retain, radio).outcome == Failed
    ensures LocalAttempt(e, nodeId, retain, radio).payload == None
  {
    if Parse(e.data).Some? {
      EncodeParse(e.data);
      assert IsBundle(e, Parse(e.data).value);
    }
  }

  // ----------------------------------------------------------------- relays

  /** A relayed packet with a bundle: its header, with a matching length, and the bundle. */
  predicate IsRelayBundle(packet: seq<Byte>, b: Bundle) {
    && 8 <= |packet| <= 208 && packet[1] == 0x0D && FieldsValid(b) && packet[8..] == Encode(b)
    && (packet[6] as int) + (packet[7] as int) * 256 == |packet| - 8
  }

  /** Packets of other types go out as they are, bundles with the fewest strips that fit, and nothing else at all. */
  lemma RelayHandsOver(packet: seq<Byte>, remainingUs: nat)
    ensures RelayPacket(packet, remainingUs).Some? && !(|packet| >= 8 && packet[1] != 0x0D) ==>
              exists b :: IsRelayBundle(packet, b)
    ensures 8 <= |packet| <= 208 && packet[1] != 0x0D ==> RelayPacket(packet, remainingUs) == Some(packet)
    ensures |packet| < 8 || |packet| > 208 ==> RelayPacket(packet, remainingUs) == None
  {
    if RelayPacket(packet, remainingUs).Some? && packet[1] == 0x0D {
      EncodeParse(packet[8..]);
      assert IsRelayBundle(packet, Parse(packet[8..]).value);
    }
  }

  lemma RelayBundleHandsOver(packet: seq<Byte>, b: Bundle, remainingUs: nat)
    requires IsRelayBundle(packet, b)
    ensures RelayPacket(packet, remainingUs).Some? <==> FitsWithin(b, Predecessors(b), remainingUs)
    ensures Fits(remainingUs, |packet|) ==> RelayPacket(packet, remainingUs) == Some(packet)
    ensures RelayPacket(packet, remainingUs).Some? ==>
              var sent := RelayPacket(packet, remainingUs).value;
              |sent| >= 8 && sent[..6] == packet[..6] && BestFit(sent[8..], b, remainingUs)
  {
    ParseEncode(b);
    var strips := Strips(b, remainingUs);
    assert FewestStrips(b, remainingUs, strips);
    assert OuterLen(b, 0) == |packet|;
    if strips.Some? {
      RelayPacketsFit(packet, remainingUs);
    }
  }

  // ------------------------------------------------------------------- slots

  /** The tail waits because it is an active bundle and a relayed packet has the turn. */
  predicate Defers(s: Tx, input: SlotInput) { Contended(s, input) && s.turn }

  /** A tail is active exactly if it is a bundle whose lowest flag is set. */
  lemma ActiveTail(e: Entry)
    ensures ActiveBundle(e).Some? <==> exists b :: IsBundle(e, b) && b.flags % 2 == 1
    ensures forall b :: IsBundle(e, b) && b.flags % 2 == 1 ==> ActiveBundle(e) == Some(b.sequence)
  {
    forall b | IsBundle(e, b) && b.flags % 2 == 1
      ensures ActiveBundle(e) == Some(b.sequence)
    {
      ParseEncode(b);
    }
    if ActiveBundle(e).Some? {
      EncodeParse(e.data);
      assert IsBundle(e, Parse(e.data).value);
    }
  }

  /** Everything tried met the radio of its own transmission, and succeeded exactly if that took it. */
  lemma TriesMeetRadio(s: Tx, input: SlotInput)
    ensures forall e :: e in SlotStep(s, input).1 && e.LocalTry? ==>
              && (e.radio == input.local || (e.radio == input.successor && ProvenSuccessor(s) && e.entry == s.local[1]))
              && (e.attempt.outcome == Success <==> e.attempt.payload.Some? && e.radio.accepts)
  {
    if s.local != [] {
      AttemptOutcome(s.local[0], input.nodeId, false, input.local);
    }
    if ProvenSuccessor(s) {
      AttemptOutcome(s.local[1], input.nodeId, true, input.successor);
    }
  }

  /** Two entries leave in one slot if and only if the proven successor is handed over and the radio takes it. */
  lemma TwoLeave(s: Tx, input: SlotInput)
    ensures |SlotStep(s, input).0.local| == |s.local| - 2 <==>
              && input.active && ProvenSuccessor(s) && !Defers(s, input) && input.successor.accepts
              && LocalAttempt(s.local[1], input.nodeId, true, input.successor).payload.Some?
    ensures var t := SlotStep(s, input).0;
      |t.local| == |s.local| - 2 ==> t == Tx(s.local[2..], s.relay, s.turn || s.relay != [], None)
  {
    if ProvenSuccessor(s) {
      AttemptOutcome(s.local[1], input.nodeId, true, input.successor);
    }
  }

  /** Without a deferral the tail of an active node is attempted and leaves, and relays get the next contended turn. */
  lemma TailServed(s: Tx, input: SlotInput)
    requires input.active && s.local != [] && !Defers(s, input) && s.deferred == None
    ensures var (t, events) := SlotStep(s, input);
      && t == Tx(s.local[1..], s.relay, s.turn || s.relay != [], None)
      && events == [LocalTry(s.local[0], LocalAttempt(s.local[0], input.nodeId, false, input.local), input.local)]
  {
  }

  /** A relayed packet is served when the tail defers to it or nothing local is pending, and never otherwise. */
  lemma RelayServed(s: Tx, input: SlotInput)
    ensures var (t, events) := SlotStep(s, input);
      if Defers(s, input) || (s.relay != [] && !(input.active && s.local != [])) then
        && t.relay == s.relay[1..] && t.local == s.local && !t.turn
        && t.deferred == (if Defers(s, input) then ActiveBundle(s.local[0]) else s.deferred)
        && events == [RelayTry(s.relay[0], RelayPacket(s.relay[0], input.relay.remainingUs))]
      else t.relay == s.relay && !ServesRelay(s, input)
  {
  }

  /**
    The whole deferral: an active bundle waits while a relayed packet is served, and in the next slot its successor,
    which carries the same frame, goes out in time and takes both off the queue.
    */
  lemma DeferralDelivers(s: Tx, b: Bundle, next: Bundle, first: SlotInput, second: SlotInput)
    requires |s.local| >= 2 && IsBundle(s.local[0], b) && IsBundle(s.local[1], next) && b.flags % 2 == 1
    requires next.sequence == (b.sequence + 1) % 0x1_0000 && next.previous1 == b.current && next.flags / 4 % 2 == 1
    requires s.relay != [] && s.turn && first.active && second.active
    requires second.successor.accepts && FitsWithin(next, Strippable(next, true), second.successor.remainingUs)
    ensures var t := SlotStep(s, first).0;
      && t.local == s.local && ServesRelay(s, first)
      && var (u, events) := SlotStep(t, second);
         && u.local == s.local[2..] && |events| == 1 && events[0].LocalTry? && events[0].attempt.payload.Some?
         && Delivers(events[0].attempt.payload.value, s.local[0])
  {
    ParseEncode(b);
    ParseEncode(next);
    assert SlotStep(s, first).1[0].RelayTry?;
    var t := SlotStep(s, first).0;
    assert ProvenSuccessor(t);
    BundleAttempt(t.local[1], next, second.nodeId, true, second.successor);
    AttemptOutcome(t.local[1], second.nodeId, true, second.successor);
    SuccessorDelivers(t, second);
  }

  // ------------------------------------------------------------------ queues

  /** A new local frame goes behind the others; a full ring loses its oldest, and with it any deferral of that. */
  lemma IngressAppends(s: Tx, e: Entry)
    requires |s.local| <= 15
    ensures Enqueued(s, e) ==
              if |s.local| == 15 then Tx(s.local[1..] + [e], s.relay, s.turn, None)
              else Tx(s.local + [e], s.relay, s.turn, s.deferred)
  {
  }

  /** Several relayed packets one after the other. */
  function RelayAll(s: Tx, packets: seq<seq<Byte>>): Tx
    decreases |packets|
  {
    if packets == [] then s
    else RelayEnqueued(RelayAll(s, packets[..|packets| - 1]), packets[|packets| - 1])
  }

  /** The relay queue keeps exactly the newest fifteen, in order, and nothing else changes. */
  lemma {:induction false} RelayKeepsNewest(s: Tx, packets: seq<seq<Byte>>)
    requires |s.relay| <= 15
    ensures var all := s.relay + packets;
      RelayAll(s, packets) == s.(relay := all[Max(0, |all| - 15)..])
    decreases |packets|
  {
    if packets == [] {
      assert s.relay + packets == s.relay;
    } else {
      var front, last := packets[..|packets| - 1], packets[|packets| - 1];
      RelayKeepsNewest(s, front);
      assert s.relay + packets == (s.relay + front) + [last];
    }
  }
}
