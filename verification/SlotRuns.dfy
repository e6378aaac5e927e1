/** What the slot handler guarantees for every queue content, slot and run. */
module SlotRuns {
  import opened Common
  import opened AudioBundle
  import opened Airtime
  import opened SlotSpec

  // ------------------------------------------------------------ skip safety

  /** A packet whose bundle carries the current frame of `skipped` as its last frame, bit for bit. */
  ghost predicate Delivers(payload: seq<Byte>, skipped: Entry) {
    && Parse(payload).Some? && skipped.packetType == PKT_AUDIO_V2 && Parse(skipped.data).Some?
    && var sent, lost := Parse(payload).value, Parse(skipped.data).value;
       && sent.previous1 == lost.current && lost.current != []
       && Previous1Present(sent.flags)
       && Previous1Active(sent.flags) == CurrentActive(lost.flags)
       && sent.sequence == (lost.sequence + 1) % 0x1_0000
  }

  /** A successful transmission that must retain the last frame does retain it. */
  lemma RetainedPrevious(e: Entry, nodeId: Byte, radio: Radio)
    requires e.packetType == PKT_AUDIO_V2 && Parse(e.data).Some?
    requires Previous1Present(Parse(e.data).value.flags)
    requires LocalAttempt(e, nodeId, true, radio).payload.Some?
    ensures var b := Parse(e.data).value;
      var sent := Parse(LocalAttempt(e, nodeId, true, radio).payload.value);
      && sent.Some? && sent.value.previous1 == b.previous1 && sent.value.sequence == b.sequence
      && Previous1Present(sent.value.flags) && Previous1Active(sent.value.flags) == Previous1Active(b.flags)
  {
    var b := Parse(e.data).value;
    EncodeParse(e.data);
    var k := Strips(b, radio.remainingUs).value;
    ParseEncode(StripN(b, k));
  }

  /** A transmission of the successor leaves the queue alone or delivers the frame it skips. */
  lemma SuccessorDelivers(s: Tx, input: SlotInput)
    requires ProvenSuccessor(s)
    ensures var a := LocalAttempt(s.local[1], input.nodeId, true, input.successor);
      a.outcome == Success ==> a.payload.Some? && Delivers(a.payload.value, s.local[0])
  {
    var a := LocalAttempt(s.local[1], input.nodeId, true, input.successor);
    if a.payload.Some? {
      RetainedPrevious(s.local[1], input.nodeId, input.successor);
      EncodeParse(s.local[0].data);
    }
  }

  /** The head of the local queue left it after its own transmission attempt. */
  ghost predicate HeadAttempted(s: Tx, t: Tx, events: seq<Event>) {
    && s.local != [] && t.local == s.local[1..]
    && exists i :: 0 <= i < |events| && events[i].LocalTry? && events[i].entry == s.local[0]
  }

  /** Two entries left the local queue: one was sent, and what was sent delivers the other. */
  ghost predicate HeadSkipped(s: Tx, t: Tx, events: seq<Event>) {
    && |s.local| >= 2 && t.local == s.local[2..]
    && |events| == 1 && events[0].LocalTry? && events[0].entry == s.local[1]
    && events[0].attempt.outcome == Success && events[0].radio.accepts && events[0].attempt.payload.Some?
    && Delivers(events[0].attempt.payload.value, s.local[0])
  }

  /**
    Whatever the queues hold and however the radio behaves, a slot leaves the local queue as
    it was, or removes its head after attempting it, or removes the two oldest entries, and
    then the bundle just accepted by the radio carries the skipped frame byte for byte.
    */
  lemma SlotAccountsForEveryFrame(s: Tx, input: SlotInput)
    ensures var (t, events) := SlotStep(s, input);
      t.local == s.local || HeadAttempted(s, t, events) || HeadSkipped(s, t, events)
  {
    var (t, events) := SlotStep(s, input);
    if ProvenSuccessor(s) {
      SuccessorDelivers(s, input);
    }
    if t.local != s.local && !HeadSkipped(s, t, events) {
      assert events[|events| - 1].LocalTry? && events[|events| - 1].entry == s.local[0];
    }
  }

  /** A proven successor that fails on air removes neither entry and gives the tail the next local slot. */
  lemma FailedSuccessorKeepsBoth(s: Tx, input: SlotInput)
    requires input.active && ProvenSuccessor(s)
    requires !(s.relay != [] && s.turn && ActiveBundle(s.local[0]).Some?)
    requires LocalAttempt(s.local[1], input.nodeId, true, input.successor).outcome == Failed
    ensures var t := SlotStep(s, input).0;
      && t.local == s.local && t.relay == s.relay && !t.turn && t.deferred == None
      && !ProvenSuccessor(t)
      && forall next: SlotInput :: next.active ==> SlotStep(t, next).0.local == s.local[1..]
  {
  }

  // ---------------------------------------------------------------- airtime

  /** The best packet for a bundle in the time left: nothing shorter was stripped that would have fitted. */
  ghost predicate BestFit(payload: seq<Byte>, b: Bundle, remainingUs: nat)
    requires FieldsValid(b)
  {
    exists k :: 0 <= k <= Predecessors(b) && payload == Encode(StripN(b, k))
      && Fits(remainingUs, MESH_HEADER + |payload|)
      && forall j :: 0 <= j < k ==> !Fits(remainingUs, OuterLen(b, j))
  }

  /** Every V2 bundle handed to the radio fits the remaining slot and keeps the most predecessors that fit. */
  lemma LocalPacketsFit(e: Entry, nodeId: Byte, retain: bool, radio: Radio)
    requires e.packetType == PKT_AUDIO_V2 && LocalAttempt(e, nodeId, retain, radio).payload.Some?
    ensures Parse(e.data).Some? && FieldsValid(Parse(e.data).value)
    ensures BestFit(LocalAttempt(e, nodeId, retain, radio).payload.value, Parse(e.data).value, radio.remainingUs)
  {
  }

  lemma RelayPacketsFit(packet: seq<Byte>, remainingUs: nat)
    requires RelayV2(packet) && RelayPacket(packet, remainingUs).Some?
    ensures var sent := RelayPacket(packet, remainingUs).value;
      && |packet| >= MESH_HEADER && |sent| >= MESH_HEADER && sent[..6] == packet[..6]
      && (sent[6] as int) + (sent[7] as int) * 256 == |sent| - MESH_HEADER
      && Parse(packet[MESH_HEADER..]).Some? && FieldsValid(Parse(packet[MESH_HEADER..]).value)
      && BestFit(sent[MESH_HEADER..], Parse(packet[MESH_HEADER..]).value, remainingUs)
  {
    EncodeParse(packet[MESH_HEADER..]);
    var b := Parse(packet[MESH_HEADER..]).value;
    var k := Strips(b, remainingUs).value;
    var payload := Encode(StripN(b, k));
    var sent := RelayPacket(packet, remainingUs).value;
    assert sent[MESH_HEADER..] == payload;
  }

  // ------------------------------------------------------------ slot sharing

  datatype Arrival = Local(entry: Entry) | Relay(packet: seq<Byte>)

  function Feed(s: Tx, arrivals: seq<Arrival>): Tx
    decreases |arrivals|
  {
    if arrivals == [] then s
    else
      var a := arrivals[0];
      Feed(if a.Local? then Enqueued(s, a.entry) else RelayEnqueued(s, a.packet), arrivals[1..])
  }

  /** Both queues hold something and the local tail is an active bundle. */
  predicate Contended(s: Tx, input: SlotInput) {
    input.active && s.relay != [] && s.local != [] && ActiveBundle(s.local[0]).Some?
  }

  predicate ServesRelay(s: Tx, input: SlotInput) {
    exists i :: 0 <= i < |SlotStep(s, input).1| && SlotStep(s, input).1[i].RelayTry?
  }

  predicate ServesLocal(s: Tx, input: SlotInput) {
    exists i :: 0 <= i < |SlotStep(s, input).1| && SlotStep(s, input).1[i].LocalTry?
  }

  lemma {:induction false} FeedKeepsTurn(s: Tx, arrivals: seq<Arrival>)
    ensures Feed(s, arrivals).turn == s.turn
    ensures s.deferred == None ==> Feed(s, arrivals).deferred == None
    decreases |arrivals|
  {
    if arrivals != [] {
      var a := arrivals[0];
      FeedKeepsTurn(if a.Local? then Enqueued(s, a.entry) else RelayEnqueued(s, a.packet), arrivals[1..]);
    }
  }

  lemma ContendedSlot(s: Tx, input: SlotInput)
    requires Contended(s, input)
    ensures var t := SlotStep(s, input).0;
      if s.turn then ServesRelay(s, input) && !t.turn
      else
        && ServesLocal(s, input)
        && (t.turn || (s.deferred != None && t.deferred == None))
  {
    var (t, events) := SlotStep(s, input);
    if s.turn {
      assert events[0].RelayTry?;
    } else {
      assert events[0].LocalTry?;
    }
  }

  /** Any two consecutive contended slots include a local transmission attempt, whatever arrives between. */
  lemma LocalWithinTwo(s: Tx, i1: SlotInput, a1: seq<Arrival>, i2: SlotInput)
    requires Contended(s, i1) && Contended(Feed(SlotStep(s, i1).0, a1), i2)
    ensures ServesLocal(s, i1) || ServesLocal(Feed(SlotStep(s, i1).0, a1), i2)
  {
    ContendedSlot(s, i1);
    FeedKeepsTurn(SlotStep(s, i1).0, a1);
    ContendedSlot(Feed(SlotStep(s, i1).0, a1), i2);
  }

  /** Any three consecutive contended slots include a relay service, whatever fails or falls back. */
  lemma RelayWithinThree(s: Tx, i1: SlotInput, a1: seq<Arrival>, i2: SlotInput, a2: seq<Arrival>, i3: SlotInput)
    requires Contended(s, i1) && Contended(Feed(SlotStep(s, i1).0, a1), i2)
    requires Contended(Feed(SlotStep(Feed(SlotStep(s, i1).0, a1), i2).0, a2), i3)
    ensures var s2 := Feed(SlotStep(s, i1).0, a1);
      var s3 := Feed(SlotStep(s2, i2).0, a2);
      ServesRelay(s, i1) || ServesRelay(s2, i2) || ServesRelay(s3, i3)
  {
    var s2 := Feed(SlotStep(s, i1).0, a1);
    var s3 := Feed(SlotStep(s2, i2).0, a2);
    ContendedSlot(s, i1);
    FeedKeepsTurn(SlotStep(s, i1).0, a1);
    ContendedSlot(s2, i2);
    FeedKeepsTurn(SlotStep(s2, i2).0, a2);
    ContendedSlot(s3, i3);
  }
}
