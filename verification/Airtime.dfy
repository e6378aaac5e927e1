/**
  Fitting a bundle into what is left of a TDMA slot: strip the oldest frames until the
  packet fits, keeping as many as possible.
  */
module Airtime {
  import opened Common
  import opened AudioBundle

  const RAMP_US := 129
  const US_PER_BYTE := 4
  const OVERHEAD_BYTES := 11
  const MARGIN_US := 100
  const MESH_HEADER := 8
  const MAX_OUTER := MESH_HEADER + MAX_BUNDLE

  /** mesh_core_esb_tx_us. */
  function TxUs(rampUs: nat, usPerByte: nat, overhead: nat, outer: nat): nat {
    rampUs + usPerByte * (outer + overhead)
  }

  predicate FitsIn(remainingUs: nat, marginUs: nat, rampUs: nat, usPerByte: nat, overhead: nat, outer: nat) {
    TxUs(rampUs, usPerByte, overhead, outer) + marginUs <= remainingUs
  }

  /** An outer packet fits the remaining slot under the radio model of the nRF. */
  predicate Fits(remainingUs: nat, outer: nat) {
    FitsIn(remainingUs, MARGIN_US, RAMP_US, US_PER_BYTE, OVERHEAD_BYTES, outer)
  }

  /** mesh_core_fit_airtime: the first candidate that fits, or -1. */
  method FitAirtime(remainingUs: nat, marginUs: nat, rampUs: nat, usPerByte: nat, overhead: nat, candidates: seq<nat>)
    returns (index: int)
    ensures -1 <= index < |candidates|
    ensures index >= 0 ==> FitsIn(remainingUs, marginUs, rampUs, usPerByte, overhead, candidates[index])
    ensures forall j :: 0 <= j < (if index >= 0 then index else |candidates|) ==>
      !FitsIn(remainingUs, marginUs, rampUs, usPerByte, overhead, candidates[j])
  {
    for i := 0 to |candidates|
      invariant forall j :: 0 <= j < i ==>
        !FitsIn(remainingUs, marginUs, rampUs, usPerByte, overhead, candidates[j])
    {
      var requiredUs := TxUs(rampUs, usPerByte, overhead, candidates[i]) + marginUs;
      if requiredUs <= remainingUs {
        return i;
      }
    }
    return -1;
  }

  /** How many older frames a bundle carries. */
  function Predecessors(b: Bundle): nat {
    if b.previous2 != [] then 2 else if b.previous1 != [] then 1 else 0
  }

  /** The bundle after k strips. */
  function StripN(b: Bundle, k: nat): (r: Bundle)
    requires FieldsValid(b) && k <= Predecessors(b)
    ensures FieldsValid(r) && Predecessors(r) == Predecessors(b) - k
    ensures r.current == b.current && r.sequence == b.sequence && CurrentActive(r.flags) == CurrentActive(b.flags)
    ensures Predecessors(r) > 0 ==>
      && r.previous1 == b.previous1 && Previous1Present(r.flags)
      && Previous1Active(r.flags) == Previous1Active(b.flags)
    decreases k
  {
    if k == 0 then b
    else
      var s := StripN(b, k - 1);
      StrippedValid(s);
      Stripped(s)
  }

  /** The outer length after k strips. */
  function OuterLen(b: Bundle, k: nat): nat
    requires FieldsValid(b) && k <= Predecessors(b)
  {
    MESH_HEADER + |Encode(StripN(b, k))|
  }

  /** The lengths the firmware computes from the view, without touching the packet. */
  function Candidates(outer: nat, b: Bundle): seq<nat>
    requires |b.previous2| + |b.previous1| <= outer
  {
    [outer]
    + (if b.previous2 != [] then [outer - |b.previous2|] else [])
    + (if b.previous1 != [] then [outer - |b.previous2| - |b.previous1|] else [])
  }

  /** They are the real lengths after each strip. */
  lemma CandidatesAreLengths(b: Bundle)
    requires FieldsValid(b)
    ensures var c := Candidates(MESH_HEADER + |Encode(b)|, b);
      |c| == Predecessors(b) + 1 && forall k :: 0 <= k < |c| ==> c[k] == OuterLen(b, k)
  {
  }

  /** The fewest strips that fit, if any do. */
  ghost predicate FewestStrips(b: Bundle, remainingUs: nat, strips: Option<nat>)
    requires FieldsValid(b)
  {
    match strips
    case Some(k) =>
      && k <= Predecessors(b) && Fits(remainingUs, OuterLen(b, k))
      && forall j :: 0 <= j < k ==> !Fits(remainingUs, OuterLen(b, j))
    case None => forall j :: 0 <= j <= Predecessors(b) ==> !Fits(remainingUs, OuterLen(b, j))
  }

  function Strips(b: Bundle, remainingUs: nat): (strips: Option<nat>)
    requires FieldsValid(b)
    ensures FewestStrips(b, remainingUs, strips)
  {
    StripsFrom(b, remainingUs, 0)
  }

  function StripsFrom(b: Bundle, remainingUs: nat, from: nat): (strips: Option<nat>)
    requires FieldsValid(b) && from <= Predecessors(b) + 1
    requires forall j :: 0 <= j < from ==> !Fits(remainingUs, OuterLen(b, j))
    ensures FewestStrips(b, remainingUs, strips)
    decreases Predecessors(b) + 1 - from
  {
    if from > Predecessors(b) then None
    else if Fits(remainingUs, OuterLen(b, from)) then Some(from)
    else StripsFrom(b, remainingUs, from + 1)
  }

  lemma FewestIsUnique(b: Bundle, remainingUs: nat, s: Option<nat>, t: Option<nat>)
    requires FieldsValid(b) && FewestStrips(b, remainingUs, s) && FewestStrips(b, remainingUs, t)
    ensures s == t
  {
  }

  /** The candidate scan of the transmit paths finds the fewest strips. */
  method ChooseStrips(outer: nat, b: Bundle, remainingUs: nat) returns (strips: Option<nat>)
    requires FieldsValid(b) && outer == MESH_HEADER + |Encode(b)|
    ensures strips == Strips(b, remainingUs)
  {
    var candidates := [outer];
    var candidateLen := outer;
    if b.previous2 != [] {
      candidateLen := candidateLen - |b.previous2|;
      candidates := candidates + [candidateLen];
    }
    if b.previous1 != [] {
      candidateLen := candidateLen - |b.previous1|;
      candidates := candidates + [candidateLen];
    }
    assert candidates == Candidates(outer, b);
    CandidatesAreLengths(b);
    var index := FitAirtime(remainingUs, MARGIN_US, RAMP_US, US_PER_BYTE, OVERHEAD_BYTES, candidates);
    strips := if index >= 0 then Some(index) else None;
    assert forall j :: 0 <= j < |candidates| ==>
      FitsIn(remainingUs, MARGIN_US, RAMP_US, US_PER_BYTE, OVERHEAD_BYTES, candidates[j])
      == Fits(remainingUs, OuterLen(b, j));
    FewestIsUnique(b, remainingUs, strips, Strips(b, remainingUs));
  }
}
