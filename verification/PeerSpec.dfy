/**
  A node's membership fields and peer table as values, with one function for each step the node can take.
  */
module PeerSpec {
  import opened Common
  import opened SlotMaps
  import opened Membership

  const NODE_TIMEOUT_MS := 3000

  datatype Row = Row(active: bool, announced: bool, nodeId: Byte, slotIndex: int, address: Address, lastSeen: int)

  const EMPTY_ROW := Row(false, false, 0, 0, [], 0)
  const EMPTY_TABLE := [EMPTY_ROW, EMPTY_ROW, EMPTY_ROW, EMPTY_ROW, EMPTY_ROW, EMPTY_ROW, EMPTY_ROW, EMPTY_ROW]

  /** A node's membership, its peer table and the ids of the speakers that hold a grant. */
  datatype Node = Node(me: Snapshot, rows: seq<Row>, grants: seq<Byte>)

  const NO_GRANTS: seq<Byte> := [0, 0]

  /** mesh_core_slot_for_node_id. */
  function SlotForNodeId(id: Byte): int { if NodeIdValid(id) then id - 1 else -1 }

  // ---------------------------------------------------------------- searches

  predicate HasId(r: Row, id: Byte) { r.active && r.nodeId == id }
  predicate HasAddress(r: Row, address: Address) { r.active && r.address == address }

  /** First active row with an id, or the table size. */
  function FindId(rows: seq<Row>, id: Byte): (i: nat)
    ensures i <= |rows| && (i < |rows| ==> HasId(rows[i], id))
    ensures forall j :: 0 <= j < i ==> !HasId(rows[j], id)
  {
    if rows == [] then 0 else if HasId(rows[0], id) then 0 else 1 + FindId(rows[1..], id)
  }

  /** First active row with an address, or the table size. */
  function FindAddress(rows: seq<Row>, address: Address): (i: nat)
    ensures i <= |rows| && (i < |rows| ==> HasAddress(rows[i], address))
    ensures forall j :: 0 <= j < i ==> !HasAddress(rows[j], address)
  {
    if rows == [] then 0 else if HasAddress(rows[0], address) then 0 else 1 + FindAddress(rows[1..], address)
  }

  /** First inactive row, or the table size. */
  function FindFree(rows: seq<Row>): (i: nat)
    ensures i <= |rows| && (i < |rows| ==> !rows[i].active)
    ensures forall j :: 0 <= j < i ==> rows[j].active
  {
    if rows == [] then 0 else if !rows[0].active then 0 else 1 + FindFree(rows[1..])
  }

  /** An id is taken by the node itself or by an active row. */
  predicate Taken(n: Node, id: Byte) { id == n.me.nodeId || exists i :: 0 <= i < |n.rows| && HasId(n.rows[i], id) }

  /** The lowest id from `id` on that is not taken, or 0. */
  function LowestFree(n: Node, id: Byte): (free: Byte)
    requires 0 < id <= MAX_NODES + 1
    ensures free != 0 ==> id <= free <= MAX_NODES && !Taken(n, free)
    ensures forall j: Byte :: id <= j < (if free != 0 then free else MAX_NODES + 1) ==> Taken(n, j)
    decreases MAX_NODES + 1 - id
  {
    if id > MAX_NODES then 0 else if !Taken(n, id) then id else LowestFree(n, id + 1)
  }

  // ------------------------------------------------------------------- steps

  /** mesh_protocol_update_peer_last_seen: a first packet announces the peer. */
  function Heard(n: Node, id: Byte, now: int): Node {
    var i := FindId(n.rows, id);
    if i == |n.rows| then n
    else if n.rows[i].announced || n.me.role != Coordinator then
      n.(rows := n.rows[i := n.rows[i].(lastSeen := now)])
    else
      n.(me := n.me.(peerCount := (n.me.peerCount + 1) % 256),
         rows := n.rows[i := n.rows[i].(lastSeen := now, announced := true)])
  }

  /** process_join after its checks: the table after the request and the id granted, 0 for none. */
  function Joined(n: Node, address: Address, now: int): (Node, Byte) {
    var known := FindAddress(n.rows, address);
    if known < |n.rows| then
      (n.(rows := n.rows[known := n.rows[known].(lastSeen := now)]), n.rows[known].nodeId)
    else
      var id := LowestFree(n, 1);
      var row := FindFree(n.rows);
      if id == 0 || row == |n.rows| then (n, id)
      else (n.(rows := n.rows[row := Row(true, false, id, SlotForNodeId(id), address, now)]), id)
  }

  /** A row goes inactive; an announced one is no longer counted. */
  function Removed(n: Node, i: nat): Node
    requires i < |n.rows|
  {
    n.(me := if n.rows[i].announced && n.me.peerCount > 0 then n.me.(peerCount := n.me.peerCount - 1) else n.me,
       rows := n.rows[i := n.rows[i].(active := false)])
  }

  /** The event process_leave builds from the packet and the sender's row. */
  function LeaveEvent(n: Node, sender: Byte, identity: Identity): (e: Event)
    ensures WellSized(e)
  {
    var i := FindId(n.rows, sender);
    Leave(sender, !identity.InvalidIdentity?, identity,
          if i < |n.rows| then Peer(true, true, n.rows[i].announced, n.rows[i].nodeId, n.rows[i].address)
          else Peer(false, false, false, 0, []))
  }

  /** process_leave. */
  function Left(n: Node, sender: Byte, identity: Identity): Node {
    var i := FindId(n.rows, sender);
    var result := Reduce(n.me, LeaveEvent(n, sender, identity));
    if result.action == RemovePeer && i < |n.rows| then
      n.(me := result.next, rows := n.rows[i := n.rows[i].(active := false)])
    else n
  }

  predicate Silent(n: Node, r: Row, now: int) {
    r.active && r.nodeId != n.me.nodeId && r.nodeId != n.me.coordinatorId && now - r.lastSeen > NODE_TIMEOUT_MS
  }

  /** check_peer_timeouts from row i on. */
  function TimedOut(n: Node, now: int, i: nat): Node
    requires i <= |n.rows|
    decreases |n.rows| - i
  {
    if i == |n.rows| then n
    else TimedOut(if Silent(n, n.rows[i], now) then Removed(n, i) else n, now, i + 1)
  }

  /** scan_work_handler: nobody was heard, so the node leads. */
  function ScanExpired(n: Node, now: int): Node
    requires |n.rows| > 0
  {
    if n.me.state != Scanning then n
    else
      var me := n.me.(role := Coordinator, nodeId := 1, slotIndex := 0, coordinatorId := 1, state := Active);
      n.(me := me.(peerCount := 0), rows := n.rows[0 := Row(true, true, 1, 0, n.me.address, now)])
  }

  /** A session reset. */
  function Cleared(n: Node): Node { Node(n.me.(peerCount := 0), EMPTY_TABLE, NO_GRANTS) }

  function Rescanning(me: Snapshot, state: State): Snapshot {
    me.(state := state, role := NoRole, nodeId := 0, slotIndex := -1, coordinatorId := 0)
  }

  /** The grants a slot map brings; places beyond its count are empty. */
  function GrantsIn(m: SlotMap): (grants: seq<Byte>)
    requires WireSized(m)
    ensures |grants| == MAX_SPEAKERS
  {
    [if m.speakerCount > 0 then m.speakerIds[0] else 0, if m.speakerCount > 1 then m.speakerIds[1] else 0]
  }

  /** process_sync, process_join_ack and process_slot_map: the reducer's verdict is adopted. */
  function Reduced(n: Node, e: Event): Node
    requires WellSized(e)
  {
    var result := Reduce(n.me, e);
    match result.action
    case DemoteCoordinator => Cleared(n.(me := result.next))
    case DiscoverCoordinator => n.(me := result.next)
    case ActivateParticipant => n.(me := result.next)
    case ApplySlotMap => n.(me := result.next, grants := GrantsIn(e.slotMap))
    case _ => n
  }

  datatype Step =
    | HearPeer(id: Byte, now: int)
    | HearJoin(source: Byte, sized: bool, requester: Address, now: int)
    | HearLeave(sender: Byte, identity: Identity)
    | CheckTimeouts(now: int)
    | ScanTimer(now: int)
    | HearEvent(event: Event)
    | ChangeGrants(grants: seq<Byte>)
    | JoinRetriesSpent
    | CoordinatorLost
    | Start
    | Stop

  /** Grants change by the coordinator's selection and by speaker grant and release messages, to any two ids. */
  predicate StepOk(step: Step) {
    && (step.HearEvent? ==> WellSized(step.event) && !step.event.Leave?)
    && (step.ChangeGrants? ==> |step.grants| == MAX_SPEAKERS)
  }

  function Take(n: Node, step: Step): Node
    requires StepOk(step) && |n.rows| == MAX_NODES
  {
    match step
    case HearPeer(id, now) => Heard(n, id, now)
    case HearJoin(source, sized, requester, now) =>
      if n.me.role != Coordinator || source != 0 || !sized then n else Joined(n, requester, now).0
    case HearLeave(sender, identity) => Left(n, sender, identity)
    case CheckTimeouts(now) => TimedOut(n, now, 0)
    case ScanTimer(now) => ScanExpired(n, now)
    case HearEvent(e) => Reduced(n, e)
    case ChangeGrants(grants) => n.(grants := grants)
    case JoinRetriesSpent => if n.me.state == Joining then n.(me := Rescanning(n.me, Scanning)) else n
    case CoordinatorLost =>
      if n.me.role == Participant then Cleared(n).(me := Rescanning(Cleared(n).me, Scanning)) else n
    case Start => if n.me.state == Idle then n.(me := n.me.(state := Scanning)) else n
    case Stop => Cleared(n).(me := Rescanning(Cleared(n).me, Idle))
  }

  // --------------------------------------------------------------- invariant

  /** The ids of announced members, the node's own among them. */
  ghost function Announced(rows: seq<Row>): set<Byte> {
    set i | 0 <= i < |rows| && rows[i].active && rows[i].announced :: rows[i].nodeId
  }

  ghost predicate RowsOk(rows: seq<Row>) {
    && (forall i :: 0 <= i < |rows| && rows[i].active ==>
          NodeIdValid(rows[i].nodeId) && rows[i].slotIndex == rows[i].nodeId - 1)
    && (forall i, j :: 0 <= i < j < |rows| && rows[i].active && rows[j].active ==>
          rows[i].nodeId != rows[j].nodeId && rows[i].address != rows[j].address)
  }

  ghost predicate Leading(n: Node)
    requires |n.rows| == MAX_NODES
  {
    && n.me.state == Active && n.me.nodeId == 1 && n.me.slotIndex == 0 && n.me.coordinatorId == 1
    && n.rows[0].active && n.rows[0].announced && n.rows[0].nodeId == 1 && n.rows[0].address == n.me.address
    && RowsOk(n.rows)
    && n.me.peerCount == |Announced(n.rows) - {n.me.nodeId}|
  }

  /** A coordinator's table is consistent; every other node's is empty. */
  ghost predicate Inv(n: Node)
  {
    && |n.rows| == MAX_NODES && |n.grants| == MAX_SPEAKERS
    && (if n.me.role == Coordinator then Leading(n)
        else forall i :: 0 <= i < |n.rows| ==> !n.rows[i].active)
  }
}
