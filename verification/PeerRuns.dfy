/**
  What every reachable peer table keeps, and what a JOIN and a LEAVE do to it.
  */
module PeerRuns {
  import opened Common
  import opened SlotMaps
  import opened Membership
  import opened PeerSpec

  // ------------------------------------------------------------ membership

  /** The first match is the only one in a consistent table. */
  lemma FindIdUnique(rows: seq<Row>, i: nat)
    requires RowsOk(rows) && i < |rows| && rows[i].active
    ensures FindId(rows, rows[i].nodeId) == i
  {
  }

  /** Rewriting one row's times and flags leaves the others' announcements alone. */
  lemma AnnouncedChange(rows: seq<Row>, i: nat, r: Row)
    requires RowsOk(rows) && i < |rows| && rows[i].active && r.nodeId == rows[i].nodeId
    ensures Announced(rows[i := r]) ==
              if r.active && r.announced then Announced(rows) + {r.nodeId} else Announced(rows) - {r.nodeId}
    ensures rows[i].announced <==> rows[i].nodeId in Announced(rows)
  {
    var after := rows[i := r];
    forall k | 0 <= k < |rows| && k != i && rows[k].active
      ensures rows[k].nodeId != r.nodeId
    {
      if k < i { assert rows[k].nodeId != rows[i].nodeId; } else { assert rows[i].nodeId != rows[k].nodeId; }
    }
    forall id
      ensures id in Announced(after) <==>
                if r.active && r.announced then id in Announced(rows) || id == r.nodeId
                else id in Announced(rows) && id != r.nodeId
    {
      if id in Announced(after) {
        var k :| 0 <= k < |after| && after[k].active && after[k].announced && after[k].nodeId == id;
        assert k != i ==> rows[k] == after[k];
      }
      if id in Announced(rows) {
        var k :| 0 <= k < |rows| && rows[k].active && rows[k].announced && rows[k].nodeId == id;
        assert k != i ==> rows[k] == after[k];
      }
      assert after[i] == r;
    }
  }

  /** A row whose id, slot and address stay keeps the table consistent. */
  lemma RowsOkChange(rows: seq<Row>, i: nat, r: Row)
    requires RowsOk(rows) && i < |rows| && rows[i].active
    requires r.nodeId == rows[i].nodeId && r.slotIndex == rows[i].slotIndex && r.address == rows[i].address
    ensures RowsOk(rows[i := r])
  {
  }

  lemma HeardTouches(n: Node, id: Byte, now: int)
    requires Inv(n) && FindId(n.rows, id) < |n.rows| && n.rows[FindId(n.rows, id)].announced
    ensures Inv(Heard(n, id, now))
  {
    var i := FindId(n.rows, id);
    var touched := n.(rows := n.rows[i := n.rows[i].(lastSeen := now)]);
    assert Inv(touched) by { TouchKeepsInv(n, i, now); }
    assert Heard(n, id, now) == touched;
  }

  lemma HeardAnnounces(n: Node, id: Byte, now: int)
    requires Inv(n) && FindId(n.rows, id) < |n.rows| && !n.rows[FindId(n.rows, id)].announced
    ensures Inv(Heard(n, id, now))
  {
    var i := FindId(n.rows, id);
    assert n.me.role == Coordinator;
    AnnounceKeepsInv(n, i, now);
    assert Heard(n, id, now) ==
           n.(me := n.me.(peerCount := n.me.peerCount + 1),
              rows := n.rows[i := n.rows[i].(lastSeen := now, announced := true)]);
  }

  lemma HeardKeepsInv(n: Node, id: Byte, now: int)
    requires Inv(n)
    ensures Inv(Heard(n, id, now))
  {
    var i := FindId(n.rows, id);
    if i == |n.rows| {
      assert Heard(n, id, now) == n;
    } else if n.rows[i].announced {
      HeardTouches(n, id, now);
    } else {
      HeardAnnounces(n, id, now);
    }
  }

  lemma TouchKeepsInv(n: Node, i: nat, now: int)
    requires Inv(n) && i < |n.rows| && n.rows[i].active
    ensures Inv(n.(rows := n.rows[i := n.rows[i].(lastSeen := now)]))
  {
    var r := n.rows[i].(lastSeen := now);
    RowsOkChange(n.rows, i, r);
    AnnouncedChange(n.rows, i, r);
    assert Announced(n.rows[i := r]) == Announced(n.rows);
  }

  lemma AnnounceKeepsInv(n: Node, i: nat, now: int)
    requires Inv(n) && i < |n.rows| && n.rows[i].active && !n.rows[i].announced
    ensures n.me.peerCount < 255
    ensures Inv(n.(me := n.me.(peerCount := n.me.peerCount + 1),
                   rows := n.rows[i := n.rows[i].(lastSeen := now, announced := true)]))
  {
    var r := n.rows[i].(lastSeen := now, announced := true);
    RowsOkChange(n.rows, i, r);
    AnnouncedChange(n.rows, i, r);
    AnnouncedBound(n.rows, n.me.nodeId);
    OneMore(Announced(n.rows), n.me.nodeId, r.nodeId);
    assert n.me.peerCount + 1 == |Announced(n.rows[i := r]) - {n.me.nodeId}|;
  }

  lemma OneMore(s: set<Byte>, own: Byte, id: Byte)
    requires own != id && id !in s
    ensures |s + {id} - {own}| == |s - {own}| + 1
  {
  }

  lemma OneLess(s: set<Byte>, own: Byte, id: Byte)
    requires own != id && id in s
    ensures |s - {id} - {own}| == |s - {own}| - 1
  {
  }

  ghost function IdsUpTo(k: Byte): (ids: set<Byte>)
    ensures |ids| == k
    ensures forall id: Byte :: id in ids <==> 0 < id <= k
  {
    if k == 0 then {} else IdsUpTo(k - 1) + {k}
  }

  ghost function Ids(): set<Byte> { IdsUpTo(MAX_NODES) }

  lemma AnnouncedBound(rows: seq<Row>, own: Byte)
    requires RowsOk(rows)
    ensures |Announced(rows) - {own}| <= MAX_NODES
  {
    SubsetSize(Announced(rows) - {own}, Ids());
  }

  lemma RemovedKeepsInv(n: Node, i: nat)
    requires Inv(n) && 0 < i < |n.rows| && n.rows[i].active
    ensures Inv(Removed(n, i)) && Removed(n, i).me.role == n.me.role
    ensures Removed(n, i).me.(peerCount := 0) == n.me.(peerCount := 0)
    ensures Announced(Removed(n, i).rows) == Announced(n.rows) - {n.rows[i].nodeId}
  {
    var id := n.rows[i].nodeId;
    var r := n.rows[i].(active := false);
    AnnouncedChange(n.rows, i, r);
    RowsOkChange(n.rows, i, r);
    assert n.rows[0].nodeId != id;
    if n.rows[i].announced {
      OneLess(Announced(n.rows), n.me.nodeId, id);
    } else {
      assert Announced(n.rows) - {id} == Announced(n.rows);
    }
  }

  lemma {:induction false} TimedOutKeepsInv(n: Node, now: int, i: nat)
    requires Inv(n) && i <= |n.rows|
    ensures Inv(TimedOut(n, now, i)) && TimedOut(n, now, i).me.role == n.me.role
    decreases |n.rows| - i
  {
    if i < |n.rows| {
      if Silent(n, n.rows[i], now) {
        RemovedKeepsInv(n, i);
        TimedOutKeepsInv(Removed(n, i), now, i + 1);
      } else {
        TimedOutKeepsInv(n, now, i + 1);
      }
    }
  }

  /** The timeout sweep deactivates exactly the silent rows and leaves every other row as it was. */
  lemma {:induction false} TimedOutRows(n: Node, now: int, i: nat)
    requires i <= |n.rows|
    ensures var after := TimedOut(n, now, i);
      && |after.rows| == |n.rows|
      && forall j :: 0 <= j < |n.rows| ==>
           after.rows[j] == (if j >= i && Silent(n, n.rows[j], now) then n.rows[j].(active := false) else n.rows[j])
    decreases |n.rows| - i
  {
    if i < |n.rows| {
      var next := if Silent(n, n.rows[i], now) then Removed(n, i) else n;
      TimedOutRows(next, now, i + 1);
      assert forall j :: 0 <= j < |n.rows| && j != i ==> next.rows[j] == n.rows[j];
    }
  }

  /** A LEAVE whose identity matches removes exactly the sender's row; any other changes nothing. */
  lemma LeftRemoves(n: Node, sender: Byte, identity: Identity)
    requires Inv(n)
    ensures var i := FindId(n.rows, sender);
      Left(n, sender, identity) ==
        if i < |n.rows| && sender != n.me.nodeId
           && (identity.Legacy?
               || (identity.ByAddress? && LengthValid(n.rows[i].address) && identity.sender == n.rows[i].address))
        then Removed(n, i) else n
  {
  }

  /** The reducer asks for a slot map exactly when a coordinator's table changes. */
  lemma LeaveAsks(n: Node, sender: Byte, identity: Identity)
    requires Inv(n)
    ensures Reduce(n.me, LeaveEvent(n, sender, identity)).publishSlotMap <==>
              n.me.role == Coordinator && Left(n, sender, identity) != n
    ensures Left(n, sender, identity).me.role == n.me.role
  {
    LeftRemoves(n, sender, identity);
  }

  lemma LeftKeepsInv(n: Node, sender: Byte, identity: Identity)
    requires Inv(n)
    ensures Inv(Left(n, sender, identity))
  {
    LeftRemoves(n, sender, identity);
    var i := FindId(n.rows, sender);
    if i < |n.rows| && sender != n.me.nodeId {
      RemovedKeepsInv(n, i);
    }
  }

  // ------------------------------------------------------------------- joins

  ghost function ActiveIds(rows: seq<Row>): set<Byte> {
    set i | 0 <= i < |rows| && rows[i].active :: rows[i].nodeId
  }

  function CountActive(rows: seq<Row>): (k: nat)
    ensures k <= |rows|
    ensures k == |rows| <==> forall i :: 0 <= i < |rows| ==> rows[i].active
  {
    if rows == [] then 0 else CountActive(rows[..|rows| - 1]) + (if rows[|rows| - 1].active then 1 else 0)
  }

  lemma ActiveIdsNext(rows: seq<Row>, r: Row)
    ensures ActiveIds(rows + [r]) == if r.active then ActiveIds(rows) + {r.nodeId} else ActiveIds(rows)
  {
    var all := rows + [r];
    forall x
      ensures x in ActiveIds(all) <==> x in ActiveIds(rows) || (r.active && x == r.nodeId)
    {
      if x in ActiveIds(all) {
        var i :| 0 <= i < |all| && all[i].active && all[i].nodeId == x;
        assert i < |rows| ==> rows[i] == all[i];
      }
      if x in ActiveIds(rows) {
        var i :| 0 <= i < |rows| && rows[i].active && rows[i].nodeId == x;
        assert rows[i] == all[i];
      }
      assert all[|rows|] == r;
    }
  }

  /** Rows with distinct ids use as many ids as there are active rows. */
  lemma {:induction false} ActiveRowsUseIds(rows: seq<Row>)
    requires RowsOk(rows)
    ensures |ActiveIds(rows)| == CountActive(rows)
  {
    if rows == [] {
      assert forall x :: x in ActiveIds(rows) ==> false;
    } else {
      var front, last := rows[..|rows| - 1], rows[|rows| - 1];
      assert rows == front + [last];
      ActiveRowsUseIds(front);
      ActiveIdsNext(front, last);
      assert last.active ==> last.nodeId !in ActiveIds(front);
    }
  }

  lemma {:induction false} SameSize(small: set<Byte>, large: set<Byte>)
    requires small <= large && |small| == |large|
    ensures small == large
  {
    if small != {} {
      var x :| x in small;
      SameSize(small - {x}, large - {x});
      assert small == (small - {x}) + {x} && large == (large - {x}) + {x};
    }
  }

  /** The ids of the active rows are exactly the taken ids. */
  lemma TakenIsActive(n: Node, id: Byte)
    requires Inv(n) && n.me.role == Coordinator
    ensures Taken(n, id) <==> id in ActiveIds(n.rows)
  {
  }

  /** Pigeonhole: a free id always comes with a free row, and a free row with a free id. */
  lemma FreeIdHasFreeRow(n: Node)
    requires Inv(n) && n.me.role == Coordinator
    ensures LowestFree(n, 1) != 0 <==> FindFree(n.rows) < |n.rows|
  {
    ActiveRowsUseIds(n.rows);
    var id := LowestFree(n, 1);
    if FindFree(n.rows) == |n.rows| {
      SameSize(ActiveIds(n.rows), Ids());
      assert id in Ids() ==> id in ActiveIds(n.rows);
      TakenIsActive(n, id);
    } else if id == 0 {
      forall j | j in Ids()
        ensures j in ActiveIds(n.rows)
      {
        TakenIsActive(n, j);
      }
      SubsetSize(Ids(), ActiveIds(n.rows));
    }
  }

  /**
    A coordinator turns a JOIN away only when the requester is unknown and every row is in use. Otherwise the
    requester ends up in exactly the row it held before or in a row that was free, under the id it is told, and all
    other rows are as they were.
    */
  lemma JoinIsRecorded(n: Node, address: Address, now: int)
    requires Inv(n) && n.me.role == Coordinator
    ensures var (after, id) := Joined(n, address, now);
      && (id == 0 <==> FindAddress(n.rows, address) == |n.rows| && FindFree(n.rows) == |n.rows|)
      && (id == 0 ==> after == n)
      && (id != 0 ==>
            var i := FindAddress(after.rows, address);
            && i < |after.rows| && after.rows[i].nodeId == id && after.rows[i].lastSeen == now
            && after == n.(rows := n.rows[i := after.rows[i]])
            && (n.rows[i].active ==> after.rows[i] == n.rows[i].(lastSeen := now))
            && (!n.rows[i].active ==> !after.rows[i].announced && !Taken(n, id)))
  {
    var (after, id) := Joined(n, address, now);
    FreeIdHasFreeRow(n);
    var known := FindAddress(n.rows, address);
    var i := FindAddress(after.rows, address);
    var row := if known < |n.rows| then known else FindFree(n.rows);
    if id != 0 {
      assert HasAddress(after.rows[row], address);
      assert forall j :: 0 <= j < row ==> after.rows[j] == n.rows[j] && !HasAddress(n.rows[j], address);
    }
  }

  lemma JoinedKeepsInv(n: Node, address: Address, now: int)
    requires Inv(n) && n.me.role == Coordinator
    ensures Inv(Joined(n, address, now).0)
  {
    var known := FindAddress(n.rows, address);
    if known < |n.rows| {
      TouchKeepsInv(n, known, now);
    } else {
      var id := LowestFree(n, 1);
      var row := FindFree(n.rows);
      if id != 0 && row < |n.rows| {
        NewRowKeepsInv(n, row, Row(true, false, id, SlotForNodeId(id), address, now));
      }
    }
  }

  /** An unannounced row in an unused place announces nobody. */
  lemma AnnouncedKept(rows: seq<Row>, i: nat, r: Row)
    requires i < |rows| && !rows[i].active && !r.announced
    ensures Announced(rows[i := r]) == Announced(rows)
  {
    var after := rows[i := r];
    forall id
      ensures id in Announced(after) <==> id in Announced(rows)
    {
      if id in Announced(after) {
        var k :| 0 <= k < |after| && after[k].active && after[k].announced && after[k].nodeId == id;
        assert rows[k] == after[k];
      }
      if id in Announced(rows) {
        var k :| 0 <= k < |after| && rows[k].active && rows[k].announced && rows[k].nodeId == id;
        assert rows[k] == after[k];
      }
    }
  }

  lemma NewRowKeepsInv(n: Node, i: nat, r: Row)
    requires Inv(n) && n.me.role == Coordinator && i < |n.rows| && !n.rows[i].active
    requires r.active && !r.announced && NodeIdValid(r.nodeId) && r.slotIndex == r.nodeId - 1
    requires !Taken(n, r.nodeId) && FindAddress(n.rows, r.address) == |n.rows|
    ensures Inv(n.(rows := n.rows[i := r]))
  {
    forall k | 0 <= k < |n.rows| && n.rows[k].active
      ensures n.rows[k].nodeId != r.nodeId && n.rows[k].address != r.address
    {
      assert !HasId(n.rows[k], r.nodeId) && !HasAddress(n.rows[k], r.address);
    }
    AnnouncedKept(n.rows, i, r);
  }

  // -------------------------------------------------------------------- runs

  lemma ScanExpiredKeepsInv(n: Node, now: int)
    requires Inv(n)
    ensures Inv(ScanExpired(n, now))
  {
  }

  lemma ReducedKeepsInv(n: Node, e: Event)
    requires Inv(n) && WellSized(e) && !e.Leave?
    ensures Inv(Reduced(n, e))
  {
    LeadershipChanges(n.me, e);
  }

  /** The steps that change the grants, reset a session, or only move between idle, scanning and joining. */
  lemma ResetKeepsInv(n: Node, step: Step)
    requires Inv(n) && StepOk(step)
    requires step.ChangeGrants? || step.JoinRetriesSpent? || step.CoordinatorLost? || step.Start? || step.Stop?
    ensures Inv(Take(n, step))
  {
  }

  lemma StepKeepsInv(n: Node, step: Step)
    requires Inv(n) && StepOk(step)
    ensures Inv(Take(n, step))
  {
    if step.HearPeer? {
      HeardKeepsInv(n, step.id, step.now);
    } else if step.HearJoin? {
      if n.me.role == Coordinator {
        JoinedKeepsInv(n, step.requester, step.now);
      }
    } else if step.HearLeave? {
      LeftKeepsInv(n, step.sender, step.identity);
    } else if step.CheckTimeouts? {
      TimedOutKeepsInv(n, step.now, 0);
    } else if step.ScanTimer? {
      ScanExpiredKeepsInv(n, step.now);
    } else if step.HearEvent? {
      ReducedKeepsInv(n, step.event);
    } else {
      ResetKeepsInv(n, step);
    }
  }

  /** Only the scan timer of a scanning node makes a coordinator; only a deposing SYNC or a stop unmakes one. */
  lemma RoleChanges(n: Node, step: Step)
    requires Inv(n) && StepOk(step)
    ensures Leads(Take(n, step).me) && !Leads(n.me) ==> step.ScanTimer? && n.me.state == Scanning
    ensures Leads(n.me) && !Leads(Take(n, step).me) ==>
              step.Stop? || (step.HearEvent? && Deposes(n.me, step.event) && Take(n, step).rows == EMPTY_TABLE)
  {
    match step
    case HearLeave(sender, identity) => LeftRemoves(n, sender, identity);
    case CheckTimeouts(now) => TimedOutRole(n, now, 0);
    case HearEvent(e) => LeadershipChanges(n.me, e);
    case _ =>
  }

  lemma {:induction false} TimedOutRole(n: Node, now: int, i: nat)
    requires i <= |n.rows|
    ensures Leads(TimedOut(n, now, i).me) == Leads(n.me)
    decreases |n.rows| - i
  {
    if i < |n.rows| {
      TimedOutRole(if Silent(n, n.rows[i], now) then Removed(n, i) else n, now, i + 1);
    }
  }

  function Run(n: Node, steps: seq<Step>): (after: Node)
    requires |n.rows| == MAX_NODES && forall k :: 0 <= k < |steps| ==> StepOk(steps[k])
    ensures |after.rows| == MAX_NODES
    decreases |steps|
  {
    if steps == [] then n else
      var before := Run(n, steps[..|steps| - 1]);
      TakeKeepsSize(before, steps[|steps| - 1]);
      Take(before, steps[|steps| - 1])
  }

  lemma TakeKeepsSize(n: Node, step: Step)
    requires |n.rows| == MAX_NODES && StepOk(step)
    ensures |Take(n, step).rows| == MAX_NODES
  {
    if step.CheckTimeouts? {
      TimedOutRows(n, step.now, 0);
    }
  }

  /** Every table a node reaches from its idle, empty start is consistent. */
  lemma {:induction false} RunKeepsInv(n: Node, steps: seq<Step>)
    requires Inv(n) && forall k :: 0 <= k < |steps| ==> StepOk(steps[k])
    ensures Inv(Run(n, steps))
    decreases |steps|
  {
    if steps != [] {
      var front := steps[..|steps| - 1];
      RunKeepsInv(n, front);
      StepKeepsInv(Run(n, front), steps[|steps| - 1]);
    }
  }
}
