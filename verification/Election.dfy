/**
  The election over whole runs: any reducer events reach any nodes in any order; a SYNC may be late, repeated or
  lost, but it carries the address of a node that was a coordinator when the run began.
  */
module Election {
  import opened Common
  import opened SlotMaps
  import opened Membership

  /** All nodes of the neighbourhood. */
  type World = seq<Snapshot>

  datatype Delivery = Delivery(receiver: nat, event: Event)

  predicate Fits(world: World, d: Delivery) { d.receiver < |world| && WellSized(d.event) }

  function Deliver(world: World, d: Delivery): (after: World)
    requires Fits(world, d)
    ensures |after| == |world|
  {
    world[d.receiver := Reduce(world[d.receiver], d.event).next]
  }

  predicate RunFits(world: World, run: seq<Delivery>) {
    forall k :: 0 <= k < |run| ==> Fits(world, run[k])
  }

  function Run(world: World, run: seq<Delivery>): (after: World)
    requires RunFits(world, run)
    ensures |after| == |world|
    decreases |run|
  {
    if run == [] then world
    else
      assert RunFits(world, run[..|run| - 1]);
      Deliver(Run(world, run[..|run| - 1]), run[|run| - 1])
  }

  predicate LeaderAt(world: World, i: nat) { i < |world| && Leads(world[i]) }

  ghost function Leaders(world: World): set<nat> {
    set i: nat | 0 <= i < |world| && LeaderAt(world, i)
  }

  /** The leaders have distinct addresses of one valid length. */
  ghost predicate WellFormed(world: World) {
    forall i: nat, j: nat :: LeaderAt(world, i) && LeaderAt(world, j) ==>
      && LengthValid(world[i].address) && |world[i].address| == |world[j].address|
      && (i != j ==> world[i].address != world[j].address)
  }

  /** Every delivered SYNC carries the address of one of the first leaders. */
  ghost predicate Genuine(world: World, run: seq<Delivery>) {
    forall k :: 0 <= k < |run| && run[k].event.Sync? ==>
      exists i: nat :: LeaderAt(world, i) && world[i].address == run[k].event.coordinatorAddress
  }

  /** low's address precedes that of every other leader in `others`. */
  ghost predicate LowestOf(world: World, low: nat, others: set<nat>) {
    && LeaderAt(world, low)
    && (forall i: nat :: LeaderAt(world, i) ==> |world[i].address| == |world[low].address|)
    && forall i: nat :: i in others && LeaderAt(world, i) && i != low ==> Lower(world[low].address, world[i].address)
  }

  /** A SYNC of low's address that was accepted as well-formed has reached node i. */
  ghost predicate Reached(world: World, run: seq<Delivery>, low: nat, i: nat)
    requires low < |world|
  {
    exists k :: 0 <= k < |run| && IsSyncOf(world[low].address, run[k], i)
  }

  predicate IsSyncOf(address: Address, d: Delivery, i: nat) {
    && d.receiver == i && d.event.Sync? && d.event.payloadValid && NodeIdValid(d.event.senderId)
    && d.event.coordinatorAddress == address
  }

  /** A run never makes a leader and never changes an address. */
  lemma {:induction false} LeadersShrink(world: World, run: seq<Delivery>, i: nat)
    requires RunFits(world, run) && i < |world|
    ensures Run(world, run)[i].address == world[i].address
    ensures LeaderAt(Run(world, run), i) ==> LeaderAt(world, i)
    decreases |run|
  {
    if run != [] {
      var before := run[..|run| - 1];
      LeadersShrink(world, before, i);
      var d := run[|run| - 1];
      LeadershipChanges(Run(world, before)[d.receiver], d.event);
    }
  }

  /** Leader j has a lower address than leader i. */
  predicate Precedes(world: World, j: nat, i: nat) {
    && LeaderAt(world, j) && LeaderAt(world, i)
    && |world[j].address| == |world[i].address| && Lower(world[j].address, world[i].address)
  }

  /** A leader that no genuine SYNC can depose keeps leading through every run. */
  lemma {:induction false} SafeLeaderStays(world: World, run: seq<Delivery>, i: nat)
    requires RunFits(world, run) && Genuine(world, run) && LeaderAt(world, i)
    requires forall j: nat :: Precedes(world, j, i) ==> Uniform(world[j].address, 0)
    ensures LeaderAt(Run(world, run), i)
    decreases |run|
  {
    if run != [] {
      var before := run[..|run| - 1];
      assert Genuine(world, before);
      SafeLeaderStays(world, before, i);
      LeadersShrink(world, before, i);
      var d := run[|run| - 1];
      LeadershipChanges(Run(world, before)[d.receiver], d.event);
    }
  }

  /** Once a leader of higher address has heard the lowest, not all-zero address, it no longer leads. */
  lemma {:induction false} ReachedLeaderYields(world: World, run: seq<Delivery>, low: nat, i: nat)
    requires RunFits(world, run) && WellFormed(world)
    requires LeaderAt(world, low) && LeaderAt(world, i) && Lower(world[low].address, world[i].address)
    requires !Uniform(world[low].address, 0)
    requires Reached(world, run, low, i)
    ensures !LeaderAt(Run(world, run), i)
    decreases |run|
  {
    var before := run[..|run| - 1];
    var d := run[|run| - 1];
    LeadersShrink(world, before, i);
    LeadershipChanges(Run(world, before)[d.receiver], d.event);
    if !IsSyncOf(world[low].address, d, i) {
      var k :| 0 <= k < |run| && IsSyncOf(world[low].address, run[k], i);
      assert before[k] == run[k];
      assert Reached(world, before, low, i);
      ReachedLeaderYields(world, before, low, i);
    }
  }

  /** Among leaders of distinct addresses one is the lowest. */
  lemma {:induction false} LowestExists(world: World, some: set<nat>) returns (low: nat)
    requires WellFormed(world) && some != {} && forall i :: i in some ==> LeaderAt(world, i)
    ensures low in some && LowestOf(world, low, some)
    decreases some
  {
    var first :| first in some;
    var rest := some - {first};
    assert some == rest + {first};
    if rest == {} {
      low := first;
    } else {
      var next := LowestExists(world, rest);
      LowerTotal(world[first].address, world[next].address);
      low := if Lower(world[first].address, world[next].address) then first else next;
      forall i: nat | i in some && LeaderAt(world, i) && i != low
        ensures Lower(world[low].address, world[i].address)
      {
        if low == first && i != next {
          LowerTransitive(world[first].address, world[next].address, world[i].address);
        }
      }
    }
  }

  /**
    The election. With distinct well-formed addresses the leaders only shrink and the lowest of them stays; once
    its SYNC has reached all the others it is the only one.
    */
  lemma LowestWins(world: World, run: seq<Delivery>, low: nat)
    requires RunFits(world, run) && WellFormed(world) && Genuine(world, run)
    requires LowestOf(world, low, Leaders(world)) && !Uniform(world[low].address, 0)
    ensures low in Leaders(Run(world, run)) && Leaders(Run(world, run)) <= Leaders(world)
    ensures (forall i :: i in Leaders(world) && i != low ==> Reached(world, run, low, i)) ==>
              Leaders(Run(world, run)) == {low}
  {
    forall i: nat | LeaderAt(world, i) && i != low
      ensures !Lower(world[i].address, world[low].address)
    {
      assert i in Leaders(world);
      LowerTotal(world[low].address, world[i].address);
    }
    LowerTotal(world[low].address, world[low].address);
    SafeLeaderStays(world, run, low);
    forall i | i in Leaders(Run(world, run))
      ensures i in Leaders(world)
      ensures Reached(world, run, low, i) ==> i == low
    {
      LeadersShrink(world, run, i);
      if Reached(world, run, low, i) && i != low {
        ReachedLeaderYields(world, run, low, i);
      }
    }
  }

  /** An all-zero lowest address never wins: two coordinators then stay, whatever is delivered. */
  lemma AllZeroNeverWins(world: World, run: seq<Delivery>, low: nat) returns (second: nat)
    requires RunFits(world, run) && WellFormed(world) && Genuine(world, run)
    requires LowestOf(world, low, Leaders(world)) && Uniform(world[low].address, 0)
    requires Leaders(world) != {low}
    ensures second != low && {low, second} <= Leaders(Run(world, run))
  {
    var others := Leaders(world) - {low};
    assert low in Leaders(world);
    assert Leaders(world) == others + {low};
    second := LowestExists(world, others);
    forall i: nat | LeaderAt(world, i) && i != low && i != second
      ensures !Lower(world[i].address, world[second].address)
    {
      assert i in others;
      LowerTotal(world[second].address, world[i].address);
    }
    LowerTotal(world[second].address, world[second].address);
    SafeLeaderStays(world, run, second);
    forall i: nat | LeaderAt(world, i)
      ensures !Lower(world[i].address, world[low].address)
    {
      if Lower(world[i].address, world[low].address) {
        LowerExtremes(world[i].address, world[low].address);
      }
    }
    SafeLeaderStays(world, run, low);
  }

  /**
    So when the lowest leader's SYNC has reached every other leader, exactly one coordinator is left if and only if
    that leader was alone from the start or its address is not all zeros.
    */
  lemma ElectionOutcome(world: World, run: seq<Delivery>, low: nat)
    requires RunFits(world, run) && WellFormed(world) && Genuine(world, run)
    requires LowestOf(world, low, Leaders(world))
    requires forall i :: i in Leaders(world) && i != low ==> Reached(world, run, low, i)
    ensures |Leaders(Run(world, run))| == 1 <==> Leaders(world) == {low} || !Uniform(world[low].address, 0)
  {
    var after := Leaders(Run(world, run));
    if !Uniform(world[low].address, 0) {
      LowestWins(world, run, low);
    } else if Leaders(world) != {low} {
      var second := AllZeroNeverWins(world, run, low);
      assert |after - {low}| == |after| - 1;
      assert second in after - {low};
    } else {
      AloneStays(world, run, low);
    }
  }

  /** A single leader stays the only one. */
  lemma AloneStays(world: World, run: seq<Delivery>, low: nat)
    requires RunFits(world, run) && WellFormed(world) && Genuine(world, run)
    requires Leaders(world) == {low}
    ensures Leaders(Run(world, run)) == {low}
  {
    assert low in Leaders(world);
    forall i: nat | LeaderAt(world, i)
      ensures i == low
    {
      assert i in Leaders(world);
    }
    LowerTotal(world[low].address, world[low].address);
    SafeLeaderStays(world, run, low);
    forall i | i in Leaders(Run(world, run))
      ensures i == low
    {
      LeadersShrink(world, run, i);
    }
  }
}
