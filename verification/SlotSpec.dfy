/**
  One TDMA slot of the nRF transmitter, as a step over two queues: defer an active local
  frame for relay traffic, later skip it only if its successor provably carries it.
  */
module SlotSpec {
  import opened Common
  import opened AudioBundle
  import opened Airtime

  const PKT_AUDIO: Byte := 0x01
  const PKT_AUDIO_V2: Byte := 0x0D

  /** A local frame waiting for its slot. */
  datatype Entry = Entry(data: seq<Byte>, audioFlags: Byte, packetType: Byte)

  datatype Outcome = Success | Failed | FallbackOriginal

  /** What one transmit call did: its verdict and the packet handed to the radio, if any. */
  datatype Attempt = Attempt(outcome: Outcome, packetType: Byte, payload: Option<seq<Byte>>)

  /** The slot's surroundings: airtime left and radio verdict of each transmit call. */
  datatype Radio = Radio(remainingUs: nat, accepts: bool)

  datatype SlotInput = SlotInput(active: bool, nodeId: Byte, successor: Radio, local: Radio, relay: Radio)

  datatype Tx = Tx(local: seq<Entry>, relay: seq<seq<Byte>>, turn: bool, deferred: Option<Word>)

  /** A transmission, with the airtime and the radio verdict it met. */
  datatype Event =
    | LocalTry(entry: Entry, attempt: Attempt, radio: Radio)
    | RelayTry(packet: seq<Byte>, sent: Option<seq<Byte>>)

  // ---------------------------------------------------------- local frames

  /** transmit_local_entry. With `retain` the previous frame must survive stripping. */
  function LocalAttempt(e: Entry, nodeId: Byte, retain: bool, radio: Radio): (a: Attempt) {
    if e.packetType == PKT_AUDIO_V2 then
      match Parse(e.data)
      case None => Attempt(Failed, PKT_AUDIO_V2, None)
      case Some(b) =>
        EncodeParse(e.data);
        var strips := Strips(b, radio.remainingUs);
        var needed := if strips.Some? then strips.value else Predecessors(b);
        if retain && needed > (if b.previous2 != [] then 1 else 0) then
          Attempt(FallbackOriginal, PKT_AUDIO_V2, None)
        else if strips.None? then Attempt(Failed, PKT_AUDIO_V2, None)
        else Attempt(if radio.accepts then Success else Failed, PKT_AUDIO_V2, Some(Encode(StripN(b, strips.value))))
    else if retain then Attempt(FallbackOriginal, e.packetType, None)
    else
      Attempt(if radio.accepts then Success else Failed, PKT_AUDIO,
              Some([CODEC_OPUS, FRAME_MS, nodeId, e.audioFlags] + e.data))
  }

  /** local_tail_is_active_v2, with the sequence number it reports. */
  function ActiveBundle(e: Entry): Option<Word> {
    if e.packetType == PKT_AUDIO_V2 && Parse(e.data).Some? && CurrentActive(Parse(e.data).value.flags)
    then Some(Parse(e.data).value.sequence) else None
  }

  /** mesh_core_successor_carries_prev1. */
  predicate SuccessorCarries(deferredSeq: Word, tail: Bundle, successor: Bundle) {
    && tail.sequence == deferredSeq
    && successor.sequence == (tail.sequence + 1) % 0x1_0000
    && Previous1Present(successor.flags)
    && |successor.previous1| == |tail.current|
    && Previous1Active(successor.flags) == CurrentActive(tail.flags)
    && successor.previous1 == tail.current
  }

  /** deferred_tail_has_proven_successor. */
  predicate ProvenSuccessor(s: Tx) {
    && s.deferred.Some? && |s.local| >= 2
    && s.local[0].packetType == PKT_AUDIO_V2 && s.local[1].packetType == PKT_AUDIO_V2
    && Parse(s.local[0].data).Some? && Parse(s.local[1].data).Some?
    && SuccessorCarries(s.deferred.value, Parse(s.local[0].data).value, Parse(s.local[1].data).value)
  }

  // ---------------------------------------------------------- relay frames

  /** The header with a new little-endian payload length. */
  function Resized(header: seq<Byte>, length: nat): seq<Byte>
    requires |header| == MESH_HEADER && length <= MAX_BUNDLE
  {
    header[..6] + [length % 256, length / 256]
  }

  predicate RelayV2(packet: seq<Byte>) { |packet| > 1 && packet[1] == PKT_AUDIO_V2 }

  /** transmit_relay_entry: the bytes handed to the radio, if any. */
  function RelayPacket(packet: seq<Byte>, remainingUs: nat): Option<seq<Byte>> {
    if |packet| < MESH_HEADER || |packet| > MAX_OUTER then None
    else if !RelayV2(packet) then Some(packet)
    else if (packet[6] as int) + (packet[7] as int) * 256 != |packet| - MESH_HEADER then None
    else
      match Parse(packet[MESH_HEADER..])
      case None => None
      case Some(b) =>
        EncodeParse(packet[MESH_HEADER..]);
        match Strips(b, remainingUs)
        case None => None
        case Some(0) => Some(packet)
        case Some(k) =>
          var payload := Encode(StripN(b, k));
          Some(Resized(packet[..MESH_HEADER], |payload|) + payload)
  }

  // ------------------------------------------------------------------- slot

  function RelayService(s: Tx, input: SlotInput): (Tx, seq<Event>)
    requires s.relay != []
  {
    (s.(relay := s.relay[1..], turn := false), [RelayTry(s.relay[0], RelayPacket(s.relay[0], input.relay.remainingUs))])
  }

  /** The ordinary local branch: attempt the tail and consume it whatever happens. */
  function TailService(s: Tx, input: SlotInput): (Tx, seq<Event>)
    requires s.local != []
  {
    (s.(local := s.local[1..], turn := s.turn || s.relay != []),
     [LocalTry(s.local[0], LocalAttempt(s.local[0], input.nodeId, false, input.local), input.local)])
  }

  /** slot_tx_handler after ingress has been drained. */
  function SlotStep(s: Tx, input: SlotInput): (Tx, seq<Event>) {
    var localPending := input.active && s.local != [];
    var relayPending := s.relay != [];
    if localPending && relayPending && s.turn && ActiveBundle(s.local[0]).Some? then
      RelayService(s.(deferred := ActiveBundle(s.local[0])), input)
    else if localPending then
      var s1 := s.(deferred := None);
      if ProvenSuccessor(s) then
        var a := LocalAttempt(s.local[1], input.nodeId, true, input.successor);
        match a.outcome
        case Success =>
          (s1.(local := s.local[2..], turn := s.turn || relayPending), [LocalTry(s.local[1], a, input.successor)])
        case Failed => (s1.(turn := false), [LocalTry(s.local[1], a, input.successor)])
        case FallbackOriginal =>
          var (t, events) := TailService(s1, input);
          (t, [LocalTry(s.local[1], a, input.successor)] + events)
      else TailService(s1, input)
    else if relayPending then RelayService(s, input)
    else (s, [])
  }

  // ---------------------------------------------------------------- ingress

  const QUEUE_ROOM := 15

  /** The TX ring keeps the newest fifteen frames; dropping the tail forgets a deferral. */
  function Enqueued(s: Tx, e: Entry): Tx {
    if |s.local| == QUEUE_ROOM then s.(local := s.local[1..] + [e], deferred := None)
    else s.(local := s.local + [e])
  }

  /** The packet as it is relayed: with its new hop count and flags in bytes 4 and 5 of the header. */
  function Rewritten(data: seq<Byte>, ttl: Byte, flags: Byte): (packet: seq<Byte>)
    requires |data| >= MESH_HEADER
    ensures |packet| == |data| && packet[4] == ttl && packet[5] == flags
    ensures forall i :: 0 <= i < |data| && i != 4 && i != 5 ==> packet[i] == data[i]
  {
    data[4 := ttl][5 := flags]
  }

  function RelayEnqueued(s: Tx, packet: seq<Byte>): Tx {
    if |s.relay| == QUEUE_ROOM then s.(relay := s.relay[1..] + [packet]) else s.(relay := s.relay + [packet])
  }
}
