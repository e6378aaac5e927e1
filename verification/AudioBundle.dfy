/**
  The redundant audio bundle: an eight-byte header, then the frame before last, the last
  frame and the current frame. Encoding, parsing and in-place stripping of the oldest frame.
  */
module AudioBundle {
  import opened Common

  const CODEC_OPUS := 1
  const FRAME_MS := 20
  const HEADER := 8
  const MAX_FRAME := 64
  const MAX_FRAME_DATA := 3 * MAX_FRAME
  const MAX_BUNDLE := HEADER + MAX_FRAME_DATA

  /** What a bundle says; a frame that is absent is empty. */
  datatype Bundle = Bundle(
    streamId: Byte,
    flags: Byte,
    sequence: Word,
    previous2: seq<Byte>,
    previous1: seq<Byte>,
    current: seq<Byte>)

  // ----------------------------------------------------------------- flags

  predicate CurrentActive(flags: Byte) { flags % 2 == 1 }

  predicate Previous1Present(flags: Byte) { flags / 2 % 2 == 1 }

  predicate Previous1Active(flags: Byte) { flags / 4 % 2 == 1 }

  predicate Previous2Present(flags: Byte) { flags / 8 % 2 == 1 }

  predicate Previous2Active(flags: Byte) { flags / 16 % 2 == 1 }

  /** No bit outside the five defined ones. */
  predicate FlagsKnown(flags: Byte) { flags / 32 == 0 }

  /** Clear the present and active bits of the frame before last. */
  function ClearPrevious2(flags: Byte): Byte { flags - flags / 8 % 4 * 8 }

  /** Clear the present and active bits of the last frame. */
  function ClearPrevious1(flags: Byte): Byte { flags - flags / 2 % 4 * 2 }

  // ------------------------------------------------------------------ codec

  /** The flags agree with the frames: audio_bundle_fields_valid. */
  predicate FieldsValid(b: Bundle) {
    && 0 < |b.current| <= MAX_FRAME
    && FlagsKnown(b.flags)
    && (if Previous1Present(b.flags) then 0 < |b.previous1| <= MAX_FRAME
        else b.previous1 == [] && !Previous1Active(b.flags))
    && (if Previous2Present(b.flags) then Previous1Present(b.flags) && 0 < |b.previous2| <= MAX_FRAME
        else b.previous2 == [] && !Previous2Active(b.flags))
    && |b.previous2| + |b.previous1| + |b.current| <= MAX_FRAME_DATA
  }

  function Header(b: Bundle): (h: seq<Byte>)
    requires FieldsValid(b)
    ensures |h| == HEADER
  {
    [CODEC_OPUS, FRAME_MS, b.streamId, b.flags, b.sequence / 256, b.sequence % 256, |b.current|, |b.previous1|]
  }

  function Encode(b: Bundle): (data: seq<Byte>)
    requires FieldsValid(b)
    ensures |data| == HEADER + |b.previous2| + |b.previous1| + |b.current| <= MAX_BUNDLE
  {
    Header(b) + b.previous2 + b.previous1 + b.current
  }

  function Parse(data: seq<Byte>): Option<Bundle> {
    if |data| < HEADER || |data| > MAX_BUNDLE || data[0] != CODEC_OPUS || data[1] != FRAME_MS || !FlagsKnown(data[3])
    then None
    else
      var flags := data[3];
      var currentLen: nat := data[6];
      var previous1Len: nat := data[7];
      var frameLen := |data| - HEADER;
      if currentLen == 0 || currentLen > MAX_FRAME || previous1Len > MAX_FRAME || currentLen + previous1Len > frameLen
      then None
      else
        var previous2Len := frameLen - previous1Len - currentLen;
        var p1, p2 := Previous1Present(flags), Previous2Present(flags);
        if || (!p1 && (previous1Len != 0 || Previous1Active(flags)))
           || (p1 && previous1Len == 0)
           || (!p2 && (previous2Len != 0 || Previous2Active(flags)))
           || (p2 && (!p1 || previous2Len == 0 || previous2Len > MAX_FRAME))
        then None
        else
          var split := HEADER + previous2Len;
          Some(Bundle(data[2], flags, (data[4] as int) * 256 + data[5], data[HEADER..split],
                      data[split..split + previous1Len], data[split + previous1Len..]))
  }

  /** Parsing inverts encoding on every valid bundle. */
  lemma ParseEncode(b: Bundle)
    requires FieldsValid(b)
    ensures Parse(Encode(b)) == Some(b)
  {
    var data := Encode(b);
    assert data[..HEADER] == Header(b);
    forall i | 0 <= i < HEADER
      ensures data[i] == Header(b)[i]
    {
      assert data[i] == data[..HEADER][i];
    }
    var split := HEADER + |b.previous2|;
    assert data[HEADER..split] == b.previous2;
    assert data[split..split + |b.previous1|] == b.previous1;
    assert data[split + |b.previous1|..] == b.current;
  }

  /** Everything the parser accepts is the encoding of the valid bundle it returns. */
  lemma EncodeParse(data: seq<Byte>)
    requires Parse(data).Some?
    ensures FieldsValid(Parse(data).value) && Encode(Parse(data).value) == data
  {
    var b := Parse(data).value;
    assert |b.current| == data[6] && |b.previous1| == data[7];
    assert data == data[..HEADER] + data[HEADER..];
    assert data[..HEADER] == Header(b);
    assert data[HEADER..] == b.previous2 + b.previous1 + b.current;
  }

  // ------------------------------------------------------------------ strip

  predicate HasPrevious(b: Bundle) { b.previous1 != [] }

  /** The bundle without its oldest frame. */
  function Stripped(b: Bundle): Bundle {
    if b.previous2 != [] then b.(previous2 := [], flags := ClearPrevious2(b.flags))
    else b.(previous1 := [], flags := ClearPrevious1(b.flags))
  }

  /** The quotients behind the flag tests, when the two upper or the two middle bits are given. */
  lemma Quotients(low: nat, middle: nat, high: nat)
    requires low <= 1 && middle <= 3 && high <= 3
    ensures var f := low + 2 * middle + 8 * high;
      f % 2 == low && f / 2 == middle + 4 * high && f / 4 == middle / 2 + 2 * high && f / 8 == high
  {
  }

  lemma SixteenthIsHalfEighth(f: nat)
    ensures f / 16 == f / 8 / 2
  {
  }

  /** The answers of the flag tests. */
  predicate Tests(flags: Byte, active: bool, p1: bool, a1: bool, p2: bool, a2: bool) {
    && FlagsKnown(flags) && CurrentActive(flags) == active
    && Previous1Present(flags) == p1 && Previous1Active(flags) == a1
    && Previous2Present(flags) == p2 && Previous2Active(flags) == a2
  }

  /** The flag tests and the two clearings, read off the same three digits. */
  lemma FlagDigits(low: nat, middle: nat, high: nat)
    requires low <= 1 && middle <= 3 && high <= 3
    ensures var f := low + 2 * middle + 8 * high;
      && Tests(f, low == 1, middle % 2 == 1, middle / 2 == 1, high % 2 == 1, high / 2 == 1)
      && ClearPrevious2(f) == low + 2 * middle && ClearPrevious1(f) == low + 8 * high
  {
    var f := low + 2 * middle + 8 * high;
    Quotients(low, middle, high);
    SixteenthIsHalfEighth(f);
    assert f / 2 % 2 == middle % 2;
    assert f / 4 % 2 == middle / 2;
    assert f / 2 % 4 == middle;
  }

  /** Clearing one frame's bits leaves the other tests as they were. */
  ghost predicate ClearsCleanly(flags: Byte) {
    exists active, p1, a1, p2, a2 ::
      && Tests(flags, active, p1, a1, p2, a2)
      && Tests(ClearPrevious2(flags), active, p1, a1, false, false)
      && Tests(ClearPrevious1(flags), active, false, false, p2, a2)
  }

  lemma ClearedDigits(low: nat, middle: nat, high: nat)
    requires low <= 1 && middle <= 3 && high <= 3
    ensures ClearsCleanly(low + 2 * middle + 8 * high)
  {
    FlagDigits(low, middle, high);
    FlagDigits(low, middle, 0);
    FlagDigits(low, 0, high);
  }

  lemma ClearedFlags(flags: Byte)
    requires FlagsKnown(flags)
    ensures ClearsCleanly(flags)
  {
    Digits(flags);
    ClearedDigits(flags % 2, flags / 2 % 4, flags / 8);
  }

  lemma Digits(flags: Byte)
    requires FlagsKnown(flags)
    ensures flags == flags % 2 + 2 * (flags / 2 % 4) + 8 * (flags / 8) && flags / 8 <= 3
  {
  }

  lemma StrippedValid(b: Bundle)
    requires FieldsValid(b) && HasPrevious(b)
    ensures FieldsValid(Stripped(b))
    ensures CurrentActive(Stripped(b).flags) == CurrentActive(b.flags)
    ensures b.previous2 != [] ==>
      && Previous1Present(Stripped(b).flags) && Previous1Active(Stripped(b).flags) == Previous1Active(b.flags)
      && |Encode(Stripped(b))| == |Encode(b)| - |b.previous2|
    ensures b.previous2 == [] ==> |Encode(Stripped(b))| == |Encode(b)| - |b.previous1| && !HasPrevious(Stripped(b))
  {
    ClearedFlags(b.flags);
  }

  // ------------------------------------------------------------ imperative

  /** memmove of a frame to a moving offset. */
  method Append(output: array<Byte>, offset: nat, frame: seq<Byte>) returns (next: nat)
    requires offset + |frame| <= output.Length
    modifies output
    ensures next == offset + |frame|
    ensures output[..next] == old(output[..offset]) + frame && output[next..] == old(output[next..])
  {
    next := offset + |frame|;
    forall i | 0 <= i < |frame| {
      output[offset + i] := frame[i];
    }
  }

  /** The eight header bytes. */
  method WriteHeader(bundle: Bundle, output: array<Byte>)
    requires FieldsValid(bundle) && output.Length >= HEADER
    modifies output
    ensures output[..HEADER] == Header(bundle) && output[HEADER..] == old(output[HEADER..])
  {
    output[0], output[1] := CODEC_OPUS, FRAME_MS;
    output[2], output[3] := bundle.streamId, bundle.flags;
    output[4], output[5] := bundle.sequence / 256, bundle.sequence % 256;
    output[6], output[7] := |bundle.current|, |bundle.previous1|;
  }

  /** The frames behind the header, the absent ones skipped. */
  method WriteFrames(bundle: Bundle, output: array<Byte>, length: nat)
    requires FieldsValid(bundle) && length == |Encode(bundle)| <= output.Length && output[..HEADER] == Header(bundle)
    modifies output
    ensures output[..length] == Encode(bundle) && output[length..] == old(output[length..])
  {
    var offset := HEADER;
    if |bundle.previous2| != 0 {
      offset := Append(output, offset, bundle.previous2);
    }
    assert output[..offset] == Header(bundle) + bundle.previous2;
    assert output[length..] == old(output[length..]);
    if |bundle.previous1| != 0 {
      offset := Append(output, offset, bundle.previous1);
    }
    assert output[..offset] == Header(bundle) + bundle.previous2 + bundle.previous1;
    assert output[length..] == old(output[length..]);
    offset := Append(output, offset, bundle.current);
  }

  /** audio_bundle_encode. */
  method EncodeInto(bundle: Bundle, output: array<Byte>) returns (ok: bool, length: nat)
    modifies output
    ensures ok == (FieldsValid(bundle) && |Encode(bundle)| <= output.Length)
    ensures ok ==> length == |Encode(bundle)| && output[..] == Encode(bundle) + old(output[length..])
    ensures !ok ==> length == 0 && unchanged(output)
  {
    if !FieldsValid(bundle) {
      return false, 0;
    }
    length := HEADER + |bundle.previous2| + |bundle.previous1| + |bundle.current|;
    if length > MAX_BUNDLE || output.Length < length {
      return false, 0;
    }
    ghost var tail := output[length..];
    WriteHeader(bundle, output);
    assert output[length..] == output[HEADER..][length - HEADER..] == tail;
    WriteFrames(bundle, output, length);
    assert output[..] == output[..length] + output[length..];
    ok := true;
  }

  /** memmove of the bytes from `from` to the end down to the end of the header. */
  method MoveDown(data: array<Byte>, length: nat, from: nat)
    requires HEADER <= from <= length <= data.Length
    modifies data
    ensures data[..HEADER] == old(data[..length])[..HEADER]
    ensures data[HEADER..HEADER + length - from] == old(data[..length])[from..]
  {
    forall i | 0 <= i < length - from {
      data[HEADER + i] := data[from + i];
    }
    assert forall k :: 0 <= k < length - from ==> data[HEADER + k] == old(data[..length])[from..][k];
  }

  lemma EncodeParts(b: Bundle)
    requires FieldsValid(b)
    ensures Encode(b)[..HEADER] == Header(b)
    ensures Encode(b)[HEADER + |b.previous2|..] == b.previous1 + b.current
    ensures Encode(b)[HEADER + |b.previous2| + |b.previous1|..] == b.current
  {
  }

  /** Drop the frame before last: the retained frames move down and two flag bits go. */
  method DropPrevious2(data: array<Byte>, length: nat, b: Bundle) returns (newLength: nat)
    requires length <= data.Length && FieldsValid(b) && data[..length] == Encode(b) && b.previous2 != []
    modifies data
    ensures FieldsValid(Stripped(b)) && newLength == |Encode(Stripped(b))| < length
    ensures data[..newLength] == Encode(Stripped(b))
  {
    EncodeParts(b);
    StrippedValid(b);
    newLength := length - |b.previous2|;
    MoveDown(data, length, HEADER + |b.previous2|);
    assert data[HEADER..newLength] == b.previous1 + b.current;
    assert data[..HEADER] == Header(b);
    data[3] := ClearPrevious2(data[3]);
    assert data[..HEADER] == Header(Stripped(b));
    assert data[..newLength] == data[..HEADER] + data[HEADER..newLength];
  }

  /** Drop the last frame of a bundle that has no older one. */
  method DropPrevious1(data: array<Byte>, length: nat, b: Bundle) returns (newLength: nat)
    requires length <= data.Length && FieldsValid(b) && data[..length] == Encode(b)
    requires b.previous2 == [] && HasPrevious(b)
    modifies data
    ensures FieldsValid(Stripped(b)) && newLength == |Encode(Stripped(b))| < length
    ensures data[..newLength] == Encode(Stripped(b))
  {
    EncodeParts(b);
    StrippedValid(b);
    newLength := HEADER + |b.current|;
    MoveDown(data, length, HEADER + |b.previous1|);
    assert data[HEADER..newLength] == b.current;
    assert data[..HEADER] == Header(b);
    data[3] := ClearPrevious1(data[3]);
    data[7] := 0;
    assert data[..HEADER] == Header(Stripped(b));
    assert data[..newLength] == data[..HEADER] + data[HEADER..newLength];
  }

  /** audio_bundle_strip_oldest: shift the retained frames down and edit the header in place. */
  method StripOldest(data: array<Byte>, length: nat) returns (ok: bool, newLength: nat)
    requires length <= data.Length
    modifies data
    ensures ok <==> Parse(old(data[..length])).Some? && HasPrevious(Parse(old(data[..length])).value)
    ensures ok ==>
      var b := Parse(old(data[..length])).value;
      && FieldsValid(Stripped(b)) && newLength == |Encode(Stripped(b))| < length
      && data[..newLength] == Encode(Stripped(b))
    ensures !ok ==> newLength == length && unchanged(data)
  {
    var parsed := Parse(data[..length]);
    if parsed.None? {
      return false, length;
    }
    var b := parsed.value;
    EncodeParse(data[..length]);
    if |b.previous2| != 0 {
      newLength := DropPrevious2(data, length, b);
      return true, newLength;
    }
    if |b.previous1| != 0 {
      newLength := DropPrevious1(data, length, b);
      return true, newLength;
    }
    return false, length;
  }
}
