/**
  The duplicate filter of the mesh: the last thirty-two accepted packet keys, in a ring.

  It is stated over the whole list of accepted keys since the last reset; a key purged with its node leaves its place.
  */
module Dedupe {
  import opened Common

  const CAPACITY := 32

  datatype Key = Key(kind: Byte, source: Byte, sequence: Byte)

  type Log = seq<Option<Key>>

  /** The key is among the last thirty-two accepted and not purged. */
  predicate Recent(log: Log, key: Key) {
    exists j :: |log| - CAPACITY <= j < |log| && 0 <= j && log[j] == Some(key)
  }

  function Purged(log: Log, node: Byte): (after: Log)
    ensures |after| == |log|
    ensures forall j :: 0 <= j < |log| ==>
              after[j] == (if log[j].Some? && log[j].value.source == node then None else log[j])
  {
    seq(|log|, j requires 0 <= j < |log| => if log[j].Some? && log[j].value.source == node then None else log[j])
  }

  /** The place of the latest of n acceptances that fell on ring index i, negative if there is none. */
  function Latest(n: nat, i: nat): (j: int)
    requires i < CAPACITY
    ensures n - CAPACITY <= j < n && j % CAPACITY == i
  {
    n - 1 - (n - 1 - i) % CAPACITY
  }

  lemma LatestUnique(n: nat, j: int)
    requires n - CAPACITY <= j < n
    ensures Latest(n, j % CAPACITY) == j
  {
  }

  ghost predicate RingIs(entries: seq<Option<Key>>, next: nat, log: Log) {
    && |entries| == CAPACITY && next == |log| % CAPACITY
    && forall i :: 0 <= i < CAPACITY ==> entries[i] == (if Latest(|log|, i) < 0 then None else log[Latest(|log|, i)])
  }

  lemma RingFinds(entries: seq<Option<Key>>, next: nat, log: Log, key: Key)
    requires RingIs(entries, next, log)
    ensures Recent(log, key) <==> exists i :: 0 <= i < CAPACITY && entries[i] == Some(key)
  {
    if Recent(log, key) {
      var j :| |log| - CAPACITY <= j < |log| && 0 <= j && log[j] == Some(key);
      LatestUnique(|log|, j);
      assert entries[j % CAPACITY] == Some(key);
    }
  }

  lemma RingAccepts(entries: seq<Option<Key>>, next: nat, log: Log, key: Key)
    requires RingIs(entries, next, log)
    ensures RingIs(entries[next := Some(key)], (next + 1) % CAPACITY, log + [Some(key)])
  {
  }

  class Cache {
    const entries: array<Option<Key>>
    var next: nat

    ghost predicate Holds(log: Log)
      reads this, entries
    {
      RingIs(entries[..], next, log)
    }

    /** mesh_core_dedupe_reset on fresh memory. */
    constructor ()
      ensures Holds([]) && fresh(entries)
    {
      entries := new Option<Key>[CAPACITY](_ => None);
      next := 0;
    }

    /** mesh_core_dedupe_contains. */
    method Contains(key: Key, ghost log: Log) returns (found: bool)
      requires Holds(log)
      ensures found == Recent(log, key)
    {
      RingFinds(entries[..], next, log, key);
      for i := 0 to CAPACITY
        invariant forall k :: 0 <= k < i ==> entries[k] != Some(key)
      {
        if entries[i] == Some(key) {
          assert entries[..][i] == Some(key);
          return true;
        }
      }
      found := false;
    }

    /** mesh_core_dedupe_accept: a key is accepted exactly if it is not recent. */
    method Accept(key: Key, ghost log: Log) returns (ok: bool)
      requires Holds(log)
      modifies this, entries
      ensures ok == !Recent(log, key)
      ensures Holds(if ok then log + [Some(key)] else log)
    {
      var known := Contains(key, log);
      if known {
        return false;
      }
      RingAccepts(entries[..], next, log, key);
      entries[next] := Some(key);
      next := (next + 1) % CAPACITY;
      ok := true;
    }

    /** mesh_core_dedupe_purge_node. */
    method PurgeNode(node: Byte, ghost log: Log)
      requires Holds(log)
      modifies entries
      ensures Holds(Purged(log, node))
    {
      for i := 0 to CAPACITY
        invariant forall k :: 0 <= k < CAPACITY ==>
          entries[k] == (if k < i && old(entries[k]).Some? && old(entries[k]).value.source == node then None
                         else old(entries[k]))
      {
        if entries[i].Some? && entries[i].value.source == node {
          entries[i] := None;
        }
      }
    }
  }

  // -------------------------------------------------------------------- runs

  datatype Op = Offer(key: Key) | Purge(node: Byte)

  function Apply(log: Log, op: Op): Log {
    match op
    case Offer(key) => if Recent(log, key) then log else log + [Some(key)]
    case Purge(node) => Purged(log, node)
  }

  function Run(ops: seq<Op>): Log {
    if ops == [] then [] else Apply(Run(ops[..|ops| - 1]), ops[|ops| - 1])
  }

  /** Two places with one key are more than thirty-two apart. */
  ghost predicate Spaced(log: Log) {
    forall i, j :: 0 <= i < j < |log| && log[i].Some? && log[i] == log[j] ==> j - i > CAPACITY
  }

  /** Between two acceptances of one key, its node not having been purged in between, lie at least thirty-two others. */
  lemma {:induction false} RepeatsAreFar(ops: seq<Op>)
    ensures Spaced(Run(ops))
  {
    if ops != [] {
      RepeatsAreFar(ops[..|ops| - 1]);
      ApplySpaces(Run(ops[..|ops| - 1]), ops[|ops| - 1]);
    }
  }

  lemma ApplySpaces(log: Log, op: Op)
    requires Spaced(log)
    ensures Spaced(Apply(log, op))
  {
  }
}
