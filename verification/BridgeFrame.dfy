/**
  The framing of the SPI bridge: sync byte, length, sequence number, type, payload and a CRC-8.
  */
module BridgeFrame {
  const SYNC_BYTE: bv8 := 0xAA
  const MAX_PAYLOAD := 253
  const OVERHEAD := 5

  datatype View = View(seqNo: bv8, kind: bv8, payload: seq<bv8>)
  datatype Decoded = Ok(view: View) | Idle | Truncated | BadSync | BadLength | BadCrc

  // --------------------------------------------------------------------- CRC

  /** One bit of the CRC with polynomial x^8 + x^2 + x + 1. */
  function Shift(crc: bv8): bv8 {
    if crc & 0x80 != 0 then (crc << 1) ^ 0x07 else crc << 1
  }

  function Shifts(crc: bv8, bits: nat): bv8 {
    if bits == 0 then crc else Shift(Shifts(crc, bits - 1))
  }

  function Crc(data: seq<bv8>): bv8 {
    if data == [] then 0 else CrcByte(Crc(data[..|data| - 1]), data[|data| - 1])
  }

  /** One byte of the CRC. */
  function CrcByte(crc: bv8, byte: bv8): bv8 { Shifts(crc ^ byte, 8) }

  /** bridge_frame_crc8. */
  method Crc8(data: seq<bv8>) returns (crc: bv8)
    ensures crc == Crc(data)
  {
    crc := 0;
    for i := 0 to |data|
      invariant crc == Crc(data[..i])
    {
      assert data[..i + 1][..i] == data[..i];
      crc := crc ^ data[i];
      ghost var start := crc;
      for bit := 0 to 8
        invariant crc == Shifts(start, bit)
      {
        crc := if crc & 0x80 != 0 then (crc << 1) ^ 0x07 else crc << 1;
      }
    }
    assert data[..|data|] == data;
  }

  /** One bit is a multiplication by x modulo x^8 + x^2 + x + 1: doubling, and 0x107 taken off what exceeds a byte. */
  lemma ShiftMultiplies(crc: bv8)
    ensures (Shift(crc) as bv16) == ((crc as bv16) << 1) || (Shift(crc) as bv16) == ((crc as bv16) << 1) ^ 0x107
  {
  }

  lemma ZeroStays(bits: nat)
    ensures Shifts(0, bits) == 0
  {
    if bits > 0 {
      ZeroStays(bits - 1);
    }
  }

  /** Data followed by their own CRC leave no remainder. */
  lemma NoRemainder(data: seq<bv8>)
    ensures Crc(data + [Crc(data)]) == 0
  {
    var all, crc := data + [Crc(data)], Crc(data);
    assert all[..|all| - 1] == data;
    assert crc ^ crc == 0;
    ZeroStays(8);
  }

  lemma ShiftInjective(a: bv8, b: bv8)
    requires Shift(a) == Shift(b)
    ensures a == b
  {
  }

  lemma {:induction false} ShiftsInjective(a: bv8, b: bv8, bits: nat)
    requires Shifts(a, bits) == Shifts(b, bits)
    ensures a == b
  {
    if bits > 0 {
      ShiftInjective(Shifts(a, bits - 1), Shifts(b, bits - 1));
      ShiftsInjective(a, b, bits - 1);
    }
  }

  /** One byte of the CRC is injective in the CRC so far and in the byte. */
  lemma CrcByteInjective(c: bv8, d: bv8, x: bv8, y: bv8)
    requires CrcByte(c, x) == CrcByte(d, y)
    ensures c == d <==> x == y
  {
    var cx, dy := c ^ x, d ^ y;
    EightShiftsInjective(cx, dy);
    XorCancels(c, d, x, y);
  }

  lemma EightShiftsInjective(a: bv8, b: bv8)
    requires Shifts(a, 8) == Shifts(b, 8)
    ensures a == b
  {
    ShiftsInjective(a, b, 8);
  }

  lemma XorCancels(c: bv8, d: bv8, x: bv8, y: bv8)
    requires c ^ x == d ^ y
    ensures c == d <==> x == y
  {
  }

  /** Data that differ in exactly one byte have different CRCs. */
  lemma {:induction false} OneByteChangesCrc(a: seq<bv8>, b: seq<bv8>, k: nat)
    requires |a| == |b| && k < |a| && a[k] != b[k] && forall j :: 0 <= j < |a| && j != k ==> a[j] == b[j]
    ensures Crc(a) != Crc(b)
    decreases |a|
  {
    var n := |a| - 1;
    var front, other := a[..n], b[..n];
    if k == n {
      assert front == other;
    } else {
      OneByteChangesCrc(front, other, k);
    }
    if Crc(a) == Crc(b) {
      CrcByteInjective(Crc(front), Crc(other), a[n], b[n]);
    }
  }

  // ------------------------------------------------------------------ frames

  /** The length byte counts the sequence number, the type and the payload. */
  function LengthByte(payload: seq<bv8>): bv8
    requires |payload| <= MAX_PAYLOAD
  {
    (|payload| + 2) as bv8
  }

  function Header(v: View): seq<bv8>
    requires |v.payload| <= MAX_PAYLOAD
  {
    [LengthByte(v.payload), v.seqNo, v.kind] + v.payload
  }

  /** The wire form of a frame. */
  function Frame(v: View): (f: seq<bv8>)
    requires |v.payload| <= MAX_PAYLOAD
    ensures |f| == |v.payload| + OVERHEAD
  {
    [SYNC_BYTE] + Header(v) + [Crc(Header(v))]
  }

  /** bridge_frame_encode: the number of bytes written, 0 when the frame is refused. */
  method Encode(dst: array<bv8>, maxPayload: nat, v: View) returns (n: nat)
    modifies dst
    ensures n == 0 <==> maxPayload > MAX_PAYLOAD || |v.payload| > maxPayload || dst.Length < |v.payload| + OVERHEAD
    ensures n == 0 ==> dst[..] == old(dst[..])
    ensures n > 0 ==> n <= dst.Length && |v.payload| <= MAX_PAYLOAD && dst[..n] == Frame(v) && dst[n..] == old(dst[n..])
  {
    if maxPayload > MAX_PAYLOAD || |v.payload| > maxPayload {
      return 0;
    }
    n := |v.payload| + OVERHEAD;
    if dst.Length < n {
      return 0;
    }
    WriteFrame(dst, v);
  }

  method WriteFrame(dst: array<bv8>, v: View)
    requires |v.payload| <= MAX_PAYLOAD && |v.payload| + OVERHEAD <= dst.Length
    modifies dst
    ensures dst[..|v.payload| + OVERHEAD] == Frame(v)
    ensures forall i :: |v.payload| + OVERHEAD <= i < dst.Length ==> dst[i] == old(dst[i])
  {
    var n := |v.payload| + OVERHEAD;
    WriteHeader(dst, v);
    var crc := Crc8(dst[1..n - 1]);
    dst[n - 1] := crc;
    assert dst[1..n - 1] == Header(v);
    assert dst[..n] == [dst[0]] + dst[1..n - 1] + [dst[n - 1]];
  }

  method WriteHeader(dst: array<bv8>, v: View)
    requires |v.payload| <= MAX_PAYLOAD && |v.payload| + OVERHEAD <= dst.Length
    modifies dst
    ensures dst[0] == SYNC_BYTE && dst[1..|v.payload| + OVERHEAD - 1] == Header(v)
    ensures forall i :: |v.payload| + OVERHEAD <= i < dst.Length ==> dst[i] == old(dst[i])
  {
    dst[0], dst[1], dst[2], dst[3] := SYNC_BYTE, LengthByte(v.payload), v.seqNo, v.kind;
    CopyInto(dst, v.payload);
    assert dst[1..|v.payload| + OVERHEAD - 1] == [dst[1], dst[2], dst[3]] + dst[4..4 + |v.payload|];
  }

  method CopyInto(dst: array<bv8>, payload: seq<bv8>)
    requires |payload| + 4 <= dst.Length
    modifies dst
    ensures dst[4..4 + |payload|] == payload
    ensures forall i :: 0 <= i < dst.Length && !(4 <= i < 4 + |payload|) ==> dst[i] == old(dst[i])
  {
    forall i | 0 <= i < |payload| {
      dst[4 + i] := payload[i];
    }
  }

  /** What a receiver makes of a buffer. */
  function Decode(frame: seq<bv8>, maxPayload: nat): Decoded {
    if maxPayload > MAX_PAYLOAD then BadLength
    else if frame == [] then Truncated
    else if frame[0] == 0 then Idle
    else if |frame| < OVERHEAD then Truncated
    else if frame[0] != SYNC_BYTE then BadSync
    else if frame[1] as int < 2 then BadLength
    else
      var payloadLen := frame[1] as int - 2;
      var declared := payloadLen + OVERHEAD;
      if payloadLen > maxPayload then BadLength
      else if |frame| < declared then Truncated
      else if frame[declared - 1] != Crc(frame[1..declared - 1]) then BadCrc
      else Ok(View(frame[2], frame[3], frame[4..declared - 1]))
  }

  /** bridge_frame_decode. */
  method DecodeFrame(frame: array<bv8>, maxPayload: nat) returns (r: Decoded)
    ensures r == Decode(frame[..], maxPayload)
  {
    if maxPayload > MAX_PAYLOAD {
      return BadLength;
    }
    if frame.Length == 0 {
      return Truncated;
    }
    if frame[0] == 0 {
      return Idle;
    }
    if frame.Length < OVERHEAD {
      return Truncated;
    }
    if frame[0] != SYNC_BYTE {
      return BadSync;
    }
    if frame[1] as int < 2 {
      return BadLength;
    }
    var payloadLen := frame[1] as int - 2;
    if payloadLen > maxPayload {
      return BadLength;
    }
    var declared := payloadLen + OVERHEAD;
    if frame.Length < declared {
      return Truncated;
    }
    var crc := Crc8(frame[1..declared - 1]);
    assert frame[1..declared - 1] == frame[..][1..declared - 1];
    if frame[declared - 1] != crc {
      return BadCrc;
    }
    assert frame[4..declared - 1] == frame[..][4..declared - 1];
    r := Ok(View(frame[2], frame[3], frame[4..declared - 1]));
  }

  // -------------------------------------------------------------- round trip

  lemma {:induction false} ByteOfValue(n: nat) returns (b: bv8)
    requires n <= 255
    ensures b as int == n
    decreases n
  {
    if n == 0 {
      b := 0;
    } else {
      var previous := ByteOfValue(n - 1);
      b := previous + 1;
    }
  }

  lemma ByteBack(b: bv8)
    ensures (b as int) as bv8 == b
  {
  }

  lemma ByteRoundTrip(n: nat)
    requires n <= 255
    ensures (n as bv8) as int == n
  {
    var b := ByteOfValue(n);
    ByteBack(b);
  }

  lemma LengthRoundTrip(payload: seq<bv8>)
    requires |payload| <= MAX_PAYLOAD
    ensures LengthByte(payload) as int == |payload| + 2
  {
    ByteRoundTrip(|payload| + 2);
  }

  lemma FrameParts(v: View, padding: seq<bv8>)
    requires |v.payload| <= MAX_PAYLOAD
    ensures var f, n := Frame(v) + padding, |v.payload| + OVERHEAD;
      && f[0] == SYNC_BYTE && f[1] == LengthByte(v.payload) && f[2] == v.seqNo && f[3] == v.kind
      && f[4..n - 1] == v.payload && f[1..n - 1] == Header(v) && f[n - 1] == Crc(Header(v))
  {
  }

  /** A frame decodes to what was encoded, whatever follows it in the buffer. */
  lemma DecodeEncoded(v: View, padding: seq<bv8>, maxPayload: nat)
    requires |v.payload| <= maxPayload <= MAX_PAYLOAD
    ensures Decode(Frame(v) + padding, maxPayload) == Ok(v)
  {
    FrameParts(v, padding);
    LengthRoundTrip(v.payload);
  }

  /** What decodes is the wire form of the result, so no two frames decode to the same. */
  lemma EncodeDecoded(frame: seq<bv8>, maxPayload: nat)
    requires Decode(frame, maxPayload).Ok?
    ensures var v := Decode(frame, maxPayload).view;
      |v.payload| <= maxPayload <= MAX_PAYLOAD && |v.payload| + OVERHEAD <= |frame|
      && frame[..|v.payload| + OVERHEAD] == Frame(v)
  {
    var v := Decode(frame, maxPayload).view;
    var n := |v.payload| + OVERHEAD;
    assert frame[1..n - 1] == [frame[1], frame[2], frame[3]] + frame[4..n - 1];
    assert frame[..n] == [frame[0]] + frame[1..n - 1] + [frame[n - 1]];
  }

  /** Changing exactly one byte after the length byte of a frame is always caught by the CRC. */
  lemma OneByteCorruptionDetected(v: View, padding: seq<bv8>, received: seq<bv8>, maxPayload: nat, k: nat)
    requires |v.payload| <= maxPayload <= MAX_PAYLOAD
    requires |received| == |Frame(v) + padding| && 2 <= k < |v.payload| + OVERHEAD
    requires received[k] != (Frame(v) + padding)[k]
    requires forall j :: 0 <= j < |received| && j != k ==> received[j] == (Frame(v) + padding)[j]
    ensures Decode(received, maxPayload) == BadCrc
  {
    FrameParts(v, padding);
    LengthRoundTrip(v.payload);
    var n := |v.payload| + OVERHEAD;
    assert received[0] == SYNC_BYTE && received[1] == LengthByte(v.payload);
    CorruptedCheck(Frame(v) + padding, received, n, k);
  }

  /** After one such change the CRC byte no longer matches the bytes before it. */
  lemma CorruptedCheck(sent: seq<bv8>, received: seq<bv8>, n: nat, k: nat)
    requires |received| == |sent| && 2 <= k < n <= |sent|
    requires received[k] != sent[k] && forall j :: 0 <= j < |sent| && j != k ==> received[j] == sent[j]
    requires sent[n - 1] == Crc(sent[1..n - 1])
    ensures received[n - 1] != Crc(received[1..n - 1])
  {
    var body, was := received[1..n - 1], sent[1..n - 1];
    assert forall j :: 0 <= j < |body| ==> body[j] == received[j + 1] && was[j] == sent[j + 1];
    if k == n - 1 {
      assert body == was;
    } else {
      OneByteChangesCrc(body, was, k - 1);
    }
  }
}
