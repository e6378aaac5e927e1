/**
  Slot maps: what a valid map is, the two bitmap-scanning validators of the shared code, and
  the choice of a free node id.
  */
module SlotMaps {
  import opened Common

  const MAX_NODES := 8
  const MAX_SPEAKERS := 2

  /** mesh_slot_map_payload_t; the two lists have their fixed wire sizes. */
  datatype SlotMap = SlotMap(
    slotCount: Byte,
    slotIds: seq<Byte>,
    speakerCount: Byte,
    speakerIds: seq<Byte>)

  predicate WireSized(m: SlotMap) { |m.slotIds| == MAX_NODES && |m.speakerIds| == MAX_SPEAKERS }

  predicate NodeIdValid(id: Byte) { 0 < id <= MAX_NODES }

  // ---------------------------------------------------------------- bitmaps

  /** mesh_core_node_bit. */
  function NodeBit(id: Byte): bv8 {
    if id == 1 then 0x01 else if id == 2 then 0x02 else if id == 3 then 0x04 else if id == 4 then 0x08
    else if id == 5 then 0x10 else if id == 6 then 0x20 else if id == 7 then 0x40 else if id == 8 then 0x80
    else 0
  }

  /** mesh_core_bitmap_contains. */
  predicate Has(bitmap: bv8, id: Byte) { bitmap & NodeBit(id) != 0 }

  lemma HasOr(bitmap: bv8, a: Byte, b: Byte)
    ensures Has(bitmap | NodeBit(a), b) <==> Has(bitmap, b) || (a == b && NodeIdValid(a))
    ensures !Has(0, b)
  {
  }

  /** The bitmap a scan builds from a list of ids. */
  function BitmapOf(ids: seq<Byte>): bv8 {
    if ids == [] then 0 else BitmapOf(ids[..|ids| - 1]) | NodeBit(ids[|ids| - 1])
  }

  /** It marks exactly the valid ids of the list. */
  lemma {:induction false} BitmapMarks(ids: seq<Byte>, id: Byte)
    ensures Has(BitmapOf(ids), id) <==> NodeIdValid(id) && id in ids
  {
    if ids == [] {
      HasOr(0, 0, id);
    } else {
      var front := ids[..|ids| - 1];
      assert ids == front + [ids[|ids| - 1]];
      BitmapMarks(front, id);
      HasOr(BitmapOf(front), ids[|ids| - 1], id);
    }
  }

  /** mesh_core_first_free_node_id: the lowest unmarked id, or 0 when all eight are marked. */
  method FirstFreeNodeId(occupied: bv8) returns (id: Byte)
    ensures id <= MAX_NODES
    ensures id != 0 ==> !Has(occupied, id)
    ensures forall j: Byte :: 0 < j < (if id != 0 then id else MAX_NODES + 1) ==> Has(occupied, j)
  {
    for node := 1 to MAX_NODES + 1
      invariant forall j: Byte :: 0 < j < node ==> Has(occupied, j)
    {
      if !Has(occupied, node) {
        return node;
      }
    }
    return 0;
  }

  // ---------------------------------------------------------- specification

  /** Every named member of the first n slots is valid and named once. */
  predicate SlotsOk(ids: seq<Byte>) {
    && (forall s :: 0 <= s < |ids| ==> ids[s] == 0 || NodeIdValid(ids[s]))
    && (forall s, t :: 0 <= s < t < |ids| && ids[s] != 0 ==> ids[s] != ids[t])
  }

  /** The granted speakers are distinct members. */
  predicate SpeakersOk(speakers: seq<Byte>, members: seq<Byte>) {
    && (forall i :: 0 <= i < |speakers| ==> NodeIdValid(speakers[i]) && speakers[i] in members)
    && (forall i, j :: 0 <= i < j < |speakers| ==> speakers[i] != speakers[j])
  }

  function Members(m: SlotMap): seq<Byte>
    requires WireSized(m) && m.slotCount <= MAX_NODES
  {
    m.slotIds[..m.slotCount]
  }

  function Speakers(m: SlotMap): seq<Byte>
    requires WireSized(m) && m.speakerCount <= MAX_SPEAKERS
  {
    m.speakerIds[..m.speakerCount]
  }

  /** A map a node may adopt: led by its coordinator, naming the node in a later slot, consistent throughout. */
  predicate MapOk(m: SlotMap, localId: Byte, coordinatorId: Byte)
    requires WireSized(m)
  {
    && NodeIdValid(localId) && NodeIdValid(coordinatorId)
    && 0 < m.slotCount <= MAX_NODES && m.slotIds[0] == coordinatorId && m.speakerCount <= MAX_SPEAKERS
    && SlotsOk(Members(m))
    && localId in Members(m)[1..]
    && SpeakersOk(Speakers(m), Members(m))
  }

  /** The last slot naming an id, or -1. */
  function LastSlot(ids: seq<Byte>, id: Byte): (s: int)
    ensures -1 <= s < |ids|
    ensures s >= 0 ==> ids[s] == id
    ensures forall t :: s < t < |ids| ==> ids[t] != id
  {
    if ids == [] then -1
    else if ids[|ids| - 1] == id then |ids| - 1
    else LastSlot(ids[..|ids| - 1], id)
  }

  function CountNamed(ids: seq<Byte>): (n: nat)
    ensures n <= |ids|
  {
    if ids == [] then 0 else CountNamed(ids[..|ids| - 1]) + (if ids[|ids| - 1] != 0 then 1 else 0)
  }

  // ------------------------------------------------------- the two scanners

  /** What both scans report of the slots: the verdict, and after success the bitmap, slot and count. */
  ghost predicate SlotScan(ids: seq<Byte>, localId: Byte, ok: bool, bitmap: bv8, localSlot: int, count: nat) {
    && ok == SlotsOk(ids)
    && (ok ==> bitmap == BitmapOf(ids) && localSlot == LastSlot(ids, localId) && count == CountNamed(ids))
  }

  lemma SlotsOkPrefix(ids: seq<Byte>, k: nat)
    requires k <= |ids| && !SlotsOk(ids[..k])
    ensures !SlotsOk(ids)
  {
  }

  /** One more slot: it is fine exactly if it is empty, or valid and not yet named. */
  lemma SlotsOkNext(ids: seq<Byte>, id: Byte)
    requires SlotsOk(ids)
    ensures SlotsOk(ids + [id]) <==> id == 0 || (NodeIdValid(id) && id !in ids)
  {
    var all := ids + [id];
    assert forall s :: 0 <= s < |ids| ==> all[s] == ids[s];
    assert all[|ids|] == id;
    if id != 0 && id in ids {
      var s :| 0 <= s < |ids| && ids[s] == id;
      assert all[s] == all[|ids|];
    }
  }

  /** One slot further, for a scan whose bitmap covers the slots so far. */
  lemma ScanStep(ids: seq<Byte>, slot: nat, localId: Byte)
    requires slot < |ids| && SlotsOk(ids[..slot])
    ensures !SlotsOk(ids[..slot + 1]) ==> !SlotsOk(ids)
    ensures LastSlot(ids[..slot + 1], localId) ==
              (if ids[slot] == localId then slot else LastSlot(ids[..slot], localId))
    ensures CountNamed(ids[..slot + 1]) == CountNamed(ids[..slot]) + (if ids[slot] != 0 then 1 else 0)
  {
    assert ids[..slot + 1][..slot] == ids[..slot];
    if !SlotsOk(ids[..slot + 1]) {
      SlotsOkPrefix(ids, slot + 1);
    }
  }

  /** Adding one id to a list adds its bit; an absent id has no bit. */
  lemma BitmapNext(ids: seq<Byte>, id: Byte)
    ensures BitmapOf(ids + [id]) == BitmapOf(ids) | NodeBit(id)
    ensures id == 0 ==> BitmapOf(ids + [id]) == BitmapOf(ids)
  {
  }

  /** A bit test against a scanned bitmap. */
  method IsMarked(bitmap: bv8, id: Byte, ghost ids: seq<Byte>) returns (marked: bool)
    requires bitmap == BitmapOf(ids)
    ensures marked == (NodeIdValid(id) && id in ids)
  {
    BitmapMarks(ids, id);
    marked := bitmap & NodeBit(id) != 0;
  }

  /** A node id has a bit exactly if it is valid. */
  method HasBit(id: Byte) returns (valid: bool)
    ensures valid == NodeIdValid(id)
  {
    valid := NodeBit(id) != 0;
  }

  /** Setting one more bit. */
  method Mark(bitmap: bv8, id: Byte, ghost ids: seq<Byte>) returns (next: bv8)
    requires bitmap == BitmapOf(ids)
    ensures next == BitmapOf(ids + [id])
  {
    BitmapNext(ids, id);
    next := bitmap | NodeBit(id);
  }

  /** The slot test of mesh_core_slot_map_valid: a zero bit means an invalid id. */
  method VisitSlotCore(ghost ids: seq<Byte>, nodeId: Byte, bitmap: bv8) returns (ok: bool, next: bv8)
    requires SlotsOk(ids) && bitmap == BitmapOf(ids)
    ensures ok == SlotsOk(ids + [nodeId])
    ensures ok ==> next == BitmapOf(ids + [nodeId])
  {
    SlotsOkNext(ids, nodeId);
    if nodeId == 0 {
      BitmapNext(ids, nodeId);
      return true, bitmap;
    }
    var valid := HasBit(nodeId);
    var marked := IsMarked(bitmap, nodeId, ids);
    ok := valid && !marked;
    next := Mark(bitmap, nodeId, ids);
  }

  /** The slot test of slot_map_valid in the membership reducer: the id is range-checked first. */
  method VisitSlotMembership(ghost ids: seq<Byte>, nodeId: Byte, bitmap: bv8) returns (ok: bool, next: bv8)
    requires SlotsOk(ids) && bitmap == BitmapOf(ids)
    ensures ok == SlotsOk(ids + [nodeId])
    ensures ok ==> next == BitmapOf(ids + [nodeId])
  {
    SlotsOkNext(ids, nodeId);
    if nodeId == 0 {
      BitmapNext(ids, nodeId);
      return true, bitmap;
    }
    if !NodeIdValid(nodeId) {
      return false, bitmap;
    }
    var marked := IsMarked(bitmap, nodeId, ids);
    ok := !marked;
    next := Mark(bitmap, nodeId, ids);
  }

  /** The slot loop of mesh_core_slot_map_valid. */
  method ScanSlotsCore(ids: seq<Byte>, localId: Byte)
    returns (ok: bool, bitmap: bv8, localSlot: int, count: nat)
    requires NodeIdValid(localId)
    ensures SlotScan(ids, localId, ok, bitmap, localSlot, count)
  {
    ok, bitmap, localSlot, count := true, 0, -1, 0;
    for slot := 0 to |ids|
      invariant SlotScan(ids[..slot], localId, true, bitmap, localSlot, count)
    {
      ScanStep(ids, slot, localId);
      assert ids[..slot + 1] == ids[..slot] + [ids[slot]];
      ok, bitmap := VisitSlotCore(ids[..slot], ids[slot], bitmap);
      if !ok {
        return;
      }
      if ids[slot] != 0 {
        count := count + 1;
        if ids[slot] == localId {
          localSlot := slot;
        }
      }
    }
    assert ids[..|ids|] == ids;
    ok := true;
  }

  /** The slot loop of slot_map_valid in the membership reducer. */
  method ScanSlotsMembership(ids: seq<Byte>, localId: Byte)
    returns (ok: bool, bitmap: bv8, localSlot: int, count: nat)
    requires NodeIdValid(localId)
    ensures SlotScan(ids, localId, ok, bitmap, localSlot, count)
  {
    ok, bitmap, localSlot, count := true, 0, -1, 0;
    var slot := 0;
    while slot < |ids|
      invariant 0 <= slot <= |ids| && SlotScan(ids[..slot], localId, true, bitmap, localSlot, count)
    {
      ScanStep(ids, slot, localId);
      assert ids[..slot + 1] == ids[..slot] + [ids[slot]];
      ok, bitmap := VisitSlotMembership(ids[..slot], ids[slot], bitmap);
      if !ok {
        return;
      }
      if ids[slot] != 0 {
        count := count + 1;
        localSlot := if ids[slot] == localId then slot else localSlot;
      }
      slot := slot + 1;
    }
    assert ids[..|ids|] == ids;
    ok := true;
  }

  lemma SpeakersOkNext(speakers: seq<Byte>, id: Byte, members: seq<Byte>)
    requires SpeakersOk(speakers, members)
    ensures SpeakersOk(speakers + [id], members) <==> NodeIdValid(id) && id in members && id !in speakers
  {
    var all := speakers + [id];
    assert forall s :: 0 <= s < |speakers| ==> all[s] == speakers[s];
    assert all[|speakers|] == id;
    if id in speakers {
      var s :| 0 <= s < |speakers| && speakers[s] == id;
      assert all[s] == all[|speakers|];
    }
  }

  lemma SpeakersOkPrefix(speakers: seq<Byte>, k: nat, members: seq<Byte>)
    requires k <= |speakers| && !SpeakersOk(speakers[..k], members)
    ensures !SpeakersOk(speakers, members)
  {
  }

  /** The speaker test: an invalid id has no bit, and only an unmarked member may be granted. */
  method VisitSpeaker(ghost speakers: seq<Byte>, id: Byte, bitmap: bv8, memberBitmap: bv8, ghost members: seq<Byte>)
    returns (ok: bool, next: bv8)
    requires SpeakersOk(speakers, members) && bitmap == BitmapOf(speakers) && memberBitmap == BitmapOf(members)
    ensures ok == SpeakersOk(speakers + [id], members) && next == BitmapOf(speakers + [id])
  {
    SpeakersOkNext(speakers, id, members);
    var valid := HasBit(id);
    var member := IsMarked(memberBitmap, id, members);
    var granted := IsMarked(bitmap, id, speakers);
    ok := valid && member && !granted;
    next := Mark(bitmap, id, speakers);
  }

  /** The speaker loop both validators share. */
  method ScanSpeakers(speakers: seq<Byte>, memberBitmap: bv8, ghost members: seq<Byte>) returns (ok: bool)
    requires memberBitmap == BitmapOf(members)
    ensures ok == SpeakersOk(speakers, members)
  {
    var speakerBitmap: bv8 := 0;
    for i := 0 to |speakers|
      invariant SpeakersOk(speakers[..i], members) && speakerBitmap == BitmapOf(speakers[..i])
    {
      assert speakers[..i + 1] == speakers[..i] + [speakers[i]];
      ok, speakerBitmap := VisitSpeaker(speakers[..i], speakers[i], speakerBitmap, memberBitmap, members);
      if !ok {
        SpeakersOkPrefix(speakers, i + 1, members);
        return;
      }
    }
    assert speakers[..|speakers|] == speakers;
    ok := true;
  }

  /** A node is named in a slot after the first exactly if its last slot is positive. */
  lemma LocalSlotPositive(ids: seq<Byte>, id: Byte)
    requires ids != []
    ensures LastSlot(ids, id) > 0 <==> id in ids[1..]
  {
  }

  /** mesh_core_slot_map_valid accepts exactly the valid maps and reports the node's slot and the member count. */
  method SlotMapValidCore(m: SlotMap, localId: Byte, coordinatorId: Byte)
    returns (ok: bool, localSlot: int, memberCount: nat)
    requires WireSized(m)
    ensures ok == MapOk(m, localId, coordinatorId)
    ensures ok ==> localSlot == LastSlot(Members(m), localId) && memberCount == CountNamed(Members(m))
  {
    localSlot, memberCount := -1, 0;
    if !NodeIdValid(localId) || !NodeIdValid(coordinatorId) || m.slotCount == 0 || m.slotCount > MAX_NODES
       || m.slotIds[0] != coordinatorId || m.speakerCount > MAX_SPEAKERS {
      return false, localSlot, memberCount;
    }
    LocalSlotPositive(Members(m), localId);
    var bitmap: bv8;
    ok, bitmap, localSlot, memberCount := ScanSlotsCore(m.slotIds[..m.slotCount], localId);
    if !ok || localSlot <= 0 {
      return false, localSlot, memberCount;
    }
    ok := ScanSpeakers(m.speakerIds[..m.speakerCount], bitmap, Members(m));
  }

  /** slot_map_valid of the membership reducer accepts the same maps and reports the same. */
  method SlotMapValidMembership(m: SlotMap, localId: Byte, coordinatorId: Byte)
    returns (ok: bool, localSlot: int, memberCount: nat)
    requires WireSized(m)
    ensures ok == MapOk(m, localId, coordinatorId)
    ensures ok ==> localSlot == LastSlot(Members(m), localId) && memberCount == CountNamed(Members(m))
  {
    localSlot, memberCount := -1, 0;
    if !NodeIdValid(localId) || !NodeIdValid(coordinatorId) || m.slotCount == 0 || m.slotCount > MAX_NODES
       || m.slotIds[0] != coordinatorId || m.speakerCount > MAX_SPEAKERS {
      return false, localSlot, memberCount;
    }
    LocalSlotPositive(Members(m), localId);
    var bitmap: bv8;
    ok, bitmap, localSlot, memberCount := ScanSlotsMembership(m.slotIds[..m.slotCount], localId);
    if !ok || localSlot <= 0 {
      return false, localSlot, memberCount;
    }
    ok := ScanSpeakers(m.speakerIds[..m.speakerCount], bitmap, Members(m));
  }
}
