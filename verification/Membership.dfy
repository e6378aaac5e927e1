/**
  The membership reducer: which distributed events change a node's state, role and identity.
  */
module Membership {
  import opened Common
  import opened SlotMaps

  const MAX_ADDRESS_LEN := 6

  datatype State = Idle | Scanning | Joining | Active
  datatype Role = NoRole | Participant | Coordinator

  type Address = seq<Byte>

  /** mesh_membership_snapshot_t; the address carries its own length. */
  datatype Snapshot = Snapshot(
    state: State, role: Role, nodeId: Byte, slotIndex: int, coordinatorId: Byte,
    peerCount: Byte, known: bool, address: Address)

  datatype Peer = Peer(present: bool, active: bool, announced: bool, nodeId: Byte, address: Address)
  datatype Identity = InvalidIdentity | Legacy | ByAddress(sender: Address)

  datatype Event =
    | Sync(senderId: Byte, payloadValid: bool, coordinatorAddress: Address)
    | JoinAck(senderId: Byte, payloadValid: bool, assignedId: Byte, slot: Byte, coordinatorId: Byte, target: Address)
    | SlotMapEvent(senderId: Byte, payloadValid: bool, slotMap: SlotMap)
    | Leave(senderId: Byte, payloadValid: bool, identity: Identity, peer: Peer)

  datatype Action = Ignore | DiscoverCoordinator | AcceptSync | DemoteCoordinator | KeepCoordinator
    | ActivateParticipant | ApplySlotMap | RemovePeer

  datatype Result = Result(
    next: Snapshot, action: Action, peerLeft: bool, publishSlotMap: bool, localWin: bool, affected: Byte)

  function Unchanged(s: Snapshot): Result { Result(s, Ignore, false, false, false, 0) }

  // -------------------------------------------------------------- addresses

  predicate LengthValid(a: Address) { 0 < |a| <= MAX_ADDRESS_LEN }

  predicate Uniform(a: Address, value: Byte) { forall i :: 0 <= i < |a| ==> a[i] == value }

  /** a precedes b lexicographically. */
  predicate Lower(a: Address, b: Address)
    requires |a| == |b|
  {
    |a| > 0 && (a[0] < b[0] || (a[0] == b[0] && Lower(a[1..], b[1..])))
  }

  lemma {:induction false} LowerAt(a: Address, b: Address, k: nat)
    requires |a| == |b| && k < |a| && a[..k] == b[..k] && a[k] != b[k]
    ensures Lower(a, b) <==> a[k] < b[k]
  {
    if k > 0 {
      assert a[0] == a[..k][0] == b[..k][0] == b[0];
      assert a[1..][..k - 1] == a[..k][1..] == b[..k][1..] == b[1..][..k - 1];
      LowerAt(a[1..], b[1..], k - 1);
    }
  }

  /** Exactly one of lower, equal and higher. */
  lemma {:induction false} LowerTotal(a: Address, b: Address)
    requires |a| == |b|
    ensures Lower(a, b) ==> !Lower(b, a) && a != b
    ensures a != b ==> Lower(a, b) || Lower(b, a)
  {
    if |a| > 0 {
      LowerTotal(a[1..], b[1..]);
      if a != b && a[0] == b[0] {
        assert a == [a[0]] + a[1..] && b == [b[0]] + b[1..];
      }
    }
  }

  lemma {:induction false} LowerTransitive(a: Address, b: Address, c: Address)
    requires |a| == |b| == |c| && Lower(a, b) && Lower(b, c)
    ensures Lower(a, c)
  {
    if a[0] == b[0] && b[0] == c[0] {
      LowerTransitive(a[1..], b[1..], c[1..]);
    }
  }

  /** Nothing precedes the all-zero address, and the all-ones address precedes nothing. */
  lemma {:induction false} LowerExtremes(a: Address, b: Address)
    requires |a| == |b| && Lower(a, b)
    ensures !Uniform(b, 0) && !Uniform(a, 255)
  {
    if a[0] == b[0] {
      var a1, b1 := a[1..], b[1..];
      LowerExtremes(a1, b1);
      var i :| 0 <= i < |b1| && b1[i] != 0;
      assert b[i + 1] != 0;
      var j :| 0 <= j < |a1| && a1[j] != 255;
      assert a[j + 1] != 255;
    }
  }

  /** address_compare: the sign of the first difference decides the lexicographic order. */
  method AddressCompare(a: Address, b: Address) returns (r: int)
    requires |a| == |b|
    ensures r == (if Lower(a, b) then -1 else if a == b then 0 else 1)
  {
    var i := 0;
    while i < |a|
      invariant 0 <= i <= |a| && a[..i] == b[..i]
    {
      if a[i] != b[i] {
        LowerAt(a, b, i);
        return if a[i] < b[i] then -1 else 1;
      }
      assert a[..i + 1] == a[..i] + [a[i]] && b[..i + 1] == b[..i] + [b[i]];
      i := i + 1;
    }
    assert a == a[..i] && b == b[..i];
    LowerTotal(a, b);
    r := 0;
  }

  /** address_all. */
  method AddressAll(a: Address, value: Byte) returns (r: bool)
    ensures r == Uniform(a, value)
  {
    for i := 0 to |a|
      invariant forall j :: 0 <= j < i ==> a[j] == value
    {
      if a[i] != value {
        return false;
      }
    }
    r := true;
  }

  // --------------------------------------------------------------- reducers

  predicate JoinAckValid(s: Snapshot, e: Event)
    requires e.JoinAck?
  {
    && s.state == Joining && e.payloadValid
    && LengthValid(e.target) && e.target == s.address
    && NodeIdValid(e.assignedId)
    && 0 < e.slot < MAX_NODES
    && NodeIdValid(e.coordinatorId)
    && e.assignedId != e.coordinatorId
    && e.senderId == e.coordinatorId
    && (s.coordinatorId == 0 || s.coordinatorId == e.coordinatorId)
  }

  function ReduceSync(s: Snapshot, e: Event): Result
    requires e.Sync?
  {
    var address := e.coordinatorAddress;
    if !e.payloadValid || !NodeIdValid(e.senderId) then Unchanged(s)
    else if !LengthValid(address) || |address| != |s.address| || Uniform(address, 0) || Uniform(address, 255)
            || address == s.address then Unchanged(s)
    else if s.state == Scanning then
      Unchanged(s).(next := s.(state := Joining, coordinatorId := e.senderId), action := DiscoverCoordinator)
    else if s.state == Active && s.role == Participant then
      Unchanged(s).(action := if e.senderId == s.coordinatorId then AcceptSync else Ignore)
    else if s.state != Active || s.role != Coordinator then Unchanged(s)
    else if Lower(address, s.address) then
      Unchanged(s).(
        next := Snapshot(Joining, NoRole, 0, -1, e.senderId, 0, false, s.address),
        action := DemoteCoordinator)
    else Unchanged(s).(action := KeepCoordinator, localWin := true)
  }

  function ReduceJoinAck(s: Snapshot, e: Event): Result
    requires e.JoinAck?
  {
    if !JoinAckValid(s, e) then Unchanged(s)
    else Unchanged(s).(
      next := Snapshot(Active, Participant, e.assignedId, e.slot, e.coordinatorId, 1, false, s.address),
      action := ActivateParticipant)
  }

  function ReduceSlotMap(s: Snapshot, e: Event): Result
    requires e.SlotMapEvent? && WireSized(e.slotMap)
  {
    if s.state != Active || s.role != Participant || e.senderId != s.coordinatorId || !e.payloadValid
       || !MapOk(e.slotMap, s.nodeId, s.coordinatorId) then Unchanged(s)
    else
      var members := Members(e.slotMap);
      LastSlotCounts(members, s.nodeId);
      Unchanged(s).(
        next := s.(slotIndex := LastSlot(members, s.nodeId), peerCount := CountNamed(members) - 1, known := true),
        action := ApplySlotMap)
  }

  /** A member of a list is counted. */
  lemma {:induction false} LastSlotCounts(ids: seq<Byte>, id: Byte)
    requires id != 0 && id in ids
    ensures CountNamed(ids) >= 1
  {
    var front := ids[..|ids| - 1];
    assert ids == front + [ids[|ids| - 1]];
    if ids[|ids| - 1] != id {
      LastSlotCounts(front, id);
    }
  }

  predicate IdentityMatches(identity: Identity, peer: Peer) {
    match identity
    case Legacy => true
    case ByAddress(sender) => LengthValid(peer.address) && sender == peer.address
    case InvalidIdentity => false
  }

  function ReduceLeave(s: Snapshot, e: Event): Result
    requires e.Leave?
  {
    if !NodeIdValid(e.senderId) || e.senderId == s.nodeId then Unchanged(s)
    else if !e.payloadValid || !e.peer.present || !e.peer.active || e.peer.nodeId != e.senderId then Unchanged(s)
    else if !IdentityMatches(e.identity, e.peer) then Unchanged(s)
    else Result(
      if e.peer.announced && s.peerCount > 0 then s.(peerCount := s.peerCount - 1) else s,
      RemovePeer, e.peer.announced, s.role == Coordinator, false, e.senderId)
  }

  predicate WellSized(e: Event) { e.SlotMapEvent? ==> WireSized(e.slotMap) }

  /** mesh_membership_reduce. */
  function Reduce(s: Snapshot, e: Event): Result
    requires WellSized(e)
  {
    match e
    case Sync(_, _, _) => ReduceSync(s, e)
    case JoinAck(_, _, _, _, _, _) => ReduceJoinAck(s, e)
    case SlotMapEvent(_, _, _) => ReduceSlotMap(s, e)
    case Leave(_, _, _, _) => ReduceLeave(s, e)
  }

  // ------------------------------------------------------------- properties

  /** The local node acts as coordinator. */
  predicate Leads(s: Snapshot) { s.state == Active && s.role == Coordinator }

  /** The SYNC of a lower, not all-zero address, from a valid sender. */
  predicate Deposes(s: Snapshot, e: Event) {
    && e.Sync? && e.payloadValid && NodeIdValid(e.senderId)
    && |e.coordinatorAddress| == |s.address| && LengthValid(s.address)
    && !Uniform(e.coordinatorAddress, 0)
    && Lower(e.coordinatorAddress, s.address)
  }

  /** No event makes a coordinator, none changes an address, and exactly a deposing SYNC unmakes one. */
  lemma LeadershipChanges(s: Snapshot, e: Event)
    requires WellSized(e)
    ensures Reduce(s, e).next.address == s.address
    ensures Leads(Reduce(s, e).next) <==> Leads(s) && !Deposes(s, e)
    ensures Reduce(s, e).action == DemoteCoordinator <==> Leads(s) && Deposes(s, e)
  {
    if e.Sync? && |e.coordinatorAddress| == |s.address| && Lower(e.coordinatorAddress, s.address) {
      LowerTotal(e.coordinatorAddress, s.address);
      LowerExtremes(e.coordinatorAddress, s.address);
    }
  }
}
