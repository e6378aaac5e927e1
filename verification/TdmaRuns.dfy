/** The clock ledger over every run, and what it means between two nodes. */
module TdmaRuns {
  import opened Common
  import opened TdmaSpec

  // ------------------------------------------------------------- one tick

  lemma RateLedger(driftPpm: int, residual: int)
    requires -MILLION < residual < MILLION
    ensures var (rate, r) := RateStep(driftPpm, residual);
      -MILLION < r < MILLION && MILLION * rate + r == residual + Scaled(driftPpm)
  {
  }

  /** A tick moves the epoch only by what it applies, re-arms after now and keeps every bound, however late it runs. */
  lemma TickKeepsLedger(t: Timing, now: int)
    requires Inv(t)
    ensures var t' := Tick(t, now);
      && Inv(t')
      && Epoch(t') - t'.applied == Epoch(t) - t.applied
      && t'.next > now
      && t'.frame > t.frame
      && -QUANTUM_US <= t'.applied - t.applied <= QUANTUM_US
  {
    RateLedger(t.drift, t.residual);
    var skipped := Skipped(t.next, now);
    assert now - t.next < (skipped + 1) * FRAME_US;
    var b := Boundaries(t.next, skipped + 1);
    assert b[skipped] == t.next + skipped * FRAME_US;
    HistoryExtends(t.starts, t.next, skipped + 1);
  }

  /** Appending on-grid boundaries after the last one keeps the history consecutive. */
  lemma HistoryExtends(starts: seq<int>, next: int, count: nat)
    requires starts != [] && NextFrame(starts[|starts| - 1], next)
    requires forall k :: 0 <= k < |starts| - 1 ==> NextFrame(starts[k], starts[k + 1])
    ensures var all := starts + Boundaries(next, count);
      forall k :: 0 <= k < |all| - 1 ==> NextFrame(all[k], all[k + 1])
  {
  }

  /** Acquisition adopts the coordinator's epoch exactly and arms a boundary in the future. */
  lemma AcquireAdoptsEpoch(t: Timing, frameCounter: nat, driftPpm: int, frameStart: int, now1: int, now2: int)
    ensures var t' := Acquired(t, frameCounter, driftPpm, frameStart, now1, now2);
      Inv(t') && Epoch(t') == frameStart - FRAME_US * frameCounter && t'.next > now2
  {
  }

  lemma SyncKeepsLedger(t: Timing, synchronized: bool, frameCounter: nat, driftPpm: int, frameStart: int,
                        now1: int, now2: int)
    requires Inv(t)
    ensures var t' := Synced(t, synchronized, frameCounter, driftPpm, frameStart, now1, now2);
      && Inv(t')
      && (match Judge(t, synchronized, frameCounter, frameStart)
          case HistoryMiss => t' == t
          case Adjust(phase) => Epoch(t') == Epoch(t) && -REACQUIRE_PHASE_US <= t'.pending <= REACQUIRE_PHASE_US
          case _ => Epoch(t') == frameStart - FRAME_US * frameCounter && t'.next > now2)
  {
  }

  /** The lookup answers exactly for the last sixteen recorded frames, and unambiguously. */
  lemma {:induction false} LookupExact(t: Timing, frameCounter: nat, back: nat)
    requires back < HISTORY && back < |t.starts| && WireBack(t.frame, back) == frameCounter
    ensures Lookup(t, frameCounter) == Some(t.starts[|t.starts| - 1 - back])
  {
    LookupSkips(t, frameCounter, back, back);
  }

  lemma WireApart(frame: int, a: nat, b: nat)
    requires a < b < a + WRAP
    ensures WireBack(frame, a) != WireBack(frame, b)
  {
  }

  lemma {:induction false} LookupSkips(t: Timing, frameCounter: nat, back: nat, steps: nat)
    requires back < HISTORY && back < |t.starts| && WireBack(t.frame, back) == frameCounter && steps <= back
    ensures LookupFrom(t, frameCounter, back - steps) == Some(t.starts[|t.starts| - 1 - back])
    decreases steps
  {
    if steps > 0 {
      LookupSkips(t, frameCounter, back, steps - 1);
      WireApart(t.frame, back - steps, back);
    }
  }

  lemma {:induction false} LookupMisses(t: Timing, frameCounter: nat, from: nat)
    requires forall back :: from <= back < HISTORY && back < |t.starts| ==> WireBack(t.frame, back) != frameCounter
    ensures LookupFrom(t, frameCounter, from) == None
    decreases HISTORY - from
  {
    if from < HISTORY && from < |t.starts| {
      LookupMisses(t, frameCounter, from + 1);
    }
  }

  // --------------------------------------------------------------- all runs

  datatype Op =
    | TickOp(now: int)
    | TuneOp(offset: int)
    | SyncOp(synchronized: bool, frameCounter: nat, driftPpm: int, frameStart: int, now1: int, now2: int)

  function Apply(t: Timing, op: Op): Timing {
    match op
    case TickOp(now) => Tick(t, now)
    case TuneOp(offset) => Tuned(t, offset)
    case SyncOp(synchronized, c, drift, start, now1, now2) => Synced(t, synchronized, c, drift, start, now1, now2)
  }

  function Run(t: Timing, ops: seq<Op>): Timing {
    if ops == [] then t else Apply(Run(t, ops[..|ops| - 1]), ops[|ops| - 1])
  }

  /**
    Over every run of ticks, tunings and SYNCs from a start, the next deadline is the epoch
    of the last acquisition plus 20 ms per frame plus the corrections applied since; at most
    2 ms is ever pending; and the whole-microsecond rate corrections plus the residual are
    exactly the drift asked for, tick by tick.
    */
  lemma {:induction false} ClockLedger(now: int, ops: seq<Op>)
    ensures var t := Run(Started(now), ops);
      && Inv(t)
      && t.next == t.base + t.applied + FRAME_US * (t.frame + 1)
      && -MAX_PENDING_US <= t.pending <= MAX_PENDING_US
      && MILLION * t.rateTotal == t.driftTotal - t.residual && -MILLION < t.residual < MILLION
  {
    if ops != [] {
      var t := Run(Started(now), ops[..|ops| - 1]);
      ClockLedger(now, ops[..|ops| - 1]);
      match ops[|ops| - 1]
      case TickOp(n) => TickKeepsLedger(t, n);
      case TuneOp(_) =>
      case SyncOp(synchronized, c, drift, start, now1, now2) =>
        SyncKeepsLedger(t, synchronized, c, drift, start, now1, now2);
    }
  }

  // ------------------------------------------------------------ convergence

  /** A tick that is not so late that the boundary it sets, possibly shortened, has passed. */
  predicate Prompt(t: Timing, now: int) { now < t.next + FRAME_US - QUANTUM_US }

  /** Ticks at the given times. */
  function Ticks(t: Timing, nows: seq<int>): Timing {
    if nows == [] then t else Tick(Ticks(t, nows[..|nows| - 1]), nows[|nows| - 1])
  }

  /** Each of them less than 19.9 ms late. */
  predicate AllPrompt(t: Timing, nows: seq<int>) {
    nows == [] ||
      (AllPrompt(t, nows[..|nows| - 1]) && Prompt(Ticks(t, nows[..|nows| - 1]), nows[|nows| - 1]))
  }

  /** The most that one tick corrects for a drift. */
  function RateMax(scaled: int): nat { (Abs(scaled) + MILLION - 1) / MILLION }

  lemma RateWithin(driftPpm: int, residual: int)
    requires -MILLION < residual < MILLION
    ensures Abs(RateStep(driftPpm, residual).0) <= RateMax(Scaled(driftPpm)) <= QUANTUM_US
  {
  }

  /** Pending corrections are far enough from their bound for the drift to be added in full. */
  predicate Roomy(t: Timing) { Abs(t.pending) + RateMax(Scaled(t.drift)) <= MAX_PENDING_US }

  /** A prompt tick skips nothing and moves a quantum from pending to applied while one is left. */
  lemma PromptTick(t: Timing, now: int)
    requires Inv(t) && Prompt(t, now) && Roomy(t)
    ensures var t' := Tick(t, now);
      var rate := RateStep(t.drift, t.residual).0;
      && t'.drift == t.drift && t'.frame == t.frame + 1 && t'.frameStart == t.next
      && t'.pending == t.pending + rate - Wanted(t.pending + rate)
      && t'.applied == t.applied + Wanted(t.pending + rate)
      && t'.rateTotal == t.rateTotal + rate && t'.driftTotal == t.driftTotal + Scaled(t.drift)
  {
    RateWithin(t.drift, t.residual);
  }

  /** Without drift the residual stays what it is and corrects nothing. */
  lemma NoDriftNoRate(residual: int)
    requires -MILLION < residual < MILLION
    ensures RateStep(0, residual) == (0, residual)
  {
  }

  /** How far a pending error has come down after one more quantum. */
  predicate WorkedOff(pending: int, start: int, n: nat) {
    && (start >= 0 ==> 0 <= pending <= Max(QUANTUM_US - 1, start - n * QUANTUM_US))
    && (start <= 0 ==> 0 <= -pending <= Max(QUANTUM_US - 1, -start - n * QUANTUM_US))
  }

  lemma QuantumStep(pending: int, start: int, n: nat)
    requires n > 0 && WorkedOff(pending, start, n - 1)
    ensures WorkedOff(pending - Wanted(pending), start, n)
  {
  }

  /** t has come to u in n ticks on time: the error is applied bit by bit and none of it is lost. */
  ghost predicate WorksOff(t: Timing, u: Timing, n: nat) {
    && Inv(u) && u.drift == 0
    && u.pending + u.applied == t.pending + t.applied
    && u.pending + Epoch(u) == t.pending + Epoch(t)
    && WorkedOff(u.pending, t.pending, n)
  }

  lemma WorksOffStart(t: Timing)
    requires Inv(t) && t.drift == 0
    ensures WorksOff(t, t, 0)
  {
  }

  lemma WorksOffStep(t: Timing, u: Timing, n: nat, now: int)
    requires WorksOff(t, u, n) && Prompt(u, now)
    ensures WorksOff(t, Tick(u, now), n + 1)
  {
    TickKeepsLedger(u, now);
    PromptTick(u, now);
    NoDriftNoRate(u.residual);
    QuantumStep(u.pending, t.pending, n + 1);
  }

  /**
    A phase error within reach is worked off, a quantum a frame: after n prompt ticks without
    drift everything taken from pending has been applied to the epoch, and at most 99 us stay
    once n quanta cover the error.
    */
  lemma {:induction false} PhaseErrorIsApplied(t: Timing, nows: seq<int>)
    requires Inv(t) && t.drift == 0 && AllPrompt(t, nows)
    ensures WorksOff(t, Ticks(t, nows), |nows|)
    decreases |nows|
  {
    if nows == [] {
      WorksOffStart(t);
    } else {
      var front := nows[..|nows| - 1];
      PhaseErrorIsApplied(t, front);
      WorksOffStep(t, Ticks(t, front), |front|, nows[|nows| - 1]);
    }
  }

  /** What may still be pending of a phase error after n prompt ticks that also correct a drift. */
  function PendingLeft(phase: int, scaled: int, n: nat): nat {
    Max(QUANTUM_US - 1, Abs(phase) - n * (QUANTUM_US - RateMax(scaled)))
  }

  lemma PendingShrinks(pending: int, rate: int, phase: int, scaled: int, n: nat)
    requires Abs(pending) <= PendingLeft(phase, scaled, n) && Abs(rate) <= RateMax(scaled) <= QUANTUM_US
    ensures Abs(pending + rate - Wanted(pending + rate)) <= PendingLeft(phase, scaled, n + 1)
  {
  }

  lemma TimesMonotone(factor: nat, m: nat, n: nat)
    requires m <= n
    ensures 0 <= factor * m <= factor * n
  {
  }

  lemma PendingLeftFalls(phase: int, scaled: int, m: nat, n: nat)
    requires RateMax(scaled) <= QUANTUM_US && m <= n
    ensures PendingLeft(phase, scaled, n) <= PendingLeft(phase, scaled, m) <= Max(QUANTUM_US - 1, Abs(phase))
  {
    TimesMonotone(QUANTUM_US - RateMax(scaled), m, n);
  }

  /** t has come to u in n prompt ticks: epoch and pending together have moved by the drift corrections alone. */
  ghost predicate Follows(t: Timing, u: Timing, n: nat) {
    && Inv(u) && u.drift == t.drift && u.frame == t.frame + n
    && u.pending + Epoch(u) - u.rateTotal == t.pending + Epoch(t) - t.rateTotal
    && u.driftTotal == t.driftTotal + n * Scaled(t.drift)
    && Abs(u.pending) <= PendingLeft(t.pending, Scaled(t.drift), n)
  }

  lemma StaysRoomy(t: Timing, u: Timing, n: nat)
    requires Inv(t) && Roomy(t) && Follows(t, u, n)
    ensures Roomy(u)
  {
    RateWithin(t.drift, 0);
    PendingLeftFalls(t.pending, Scaled(t.drift), 0, n);
  }

  lemma FollowsStep(t: Timing, u: Timing, n: nat, now: int)
    requires Inv(t) && Roomy(t) && Follows(t, u, n) && Prompt(u, now)
    ensures Follows(t, Tick(u, now), n + 1)
  {
    var scaled := Scaled(t.drift);
    RateWithin(u.drift, u.residual);
    StaysRoomy(t, u, n);
    TickKeepsLedger(u, now);
    PromptTick(u, now);
    PendingShrinks(u.pending, RateStep(u.drift, u.residual).0, t.pending, scaled, n);
    assert (n + 1) * scaled == n * scaled + scaled;
  }

  /** Prompt ticks lose nothing of the drift nor of the phase error, and work the error off beside it. */
  lemma {:induction false} DriftIsFollowed(t: Timing, nows: seq<int>)
    requires Inv(t) && Roomy(t) && AllPrompt(t, nows)
    ensures Follows(t, Ticks(t, nows), |nows|)
    decreases |nows|
  {
    if nows != [] {
      var front := nows[..|nows| - 1];
      DriftIsFollowed(t, front);
      FollowsStep(t, Ticks(t, front), |front|, nows[|nows| - 1]);
    }
  }

  // --------------------------------------------------------- between nodes

  function SlotStart(frameStart: int, slot: nat): int { frameStart + slot * SLOT_US }

  function SlotDeadline(frameStart: int, slot: nat): int { SlotStart(frameStart, slot) + SLOT_US - GUARD_US }

  function ControlStart(frameStart: int): int { frameStart + MAX_NODES * SLOT_US }

  function ControlDeadline(frameStart: int): int { ControlStart(frameStart) + CONTROL_WINDOW_US - GUARD_US }

  predicate Within(a: int, b: int, tolerance: nat) { b - tolerance <= a <= b + tolerance }

  /** The boundary recorded `back` frames ago lies that many frames back, give or take a quantum for each. */
  lemma {:induction false} BoundaryBack(t: Timing, back: nat)
    requires Inv(t) && back < |t.starts|
    ensures Within(t.starts[|t.starts| - 1 - back], t.frameStart - FRAME_US * back, QUANTUM_US * back)
  {
    if back > 0 {
      BoundaryBack(t, back - 1);
      assert NextFrame(t.starts[|t.starts| - 1 - back], t.starts[|t.starts| - back]);
    }
  }

  /** So every recorded boundary tells the epoch. */
  lemma EpochOfBoundary(t: Timing, back: nat)
    requires Inv(t) && back < |t.starts|
    ensures Within(t.starts[|t.starts| - 1 - back] - FRAME_US * (t.frame - back), Epoch(t), QUANTUM_US * (back + 1))
  {
    BoundaryBack(t, back);
  }

  /**
    A SYNC that only adjusts the phase leaves exactly the measured phase pending, and epoch plus pending within a
    quantum a frame of the epoch that the SYNC stands for.
    */
  lemma SyncBoundsEpoch(t: Timing, frameCounter: nat, driftPpm: int, frameStart: int, now1: int, now2: int, back: nat)
    requires Inv(t) && Judge(t, true, frameCounter, frameStart).Adjust?
    requires back < HISTORY && back < |t.starts| && WireBack(t.frame, back) == frameCounter
    ensures var t' := Synced(t, true, frameCounter, driftPpm, frameStart, now1, now2);
      && Inv(t') && t'.drift == driftPpm && t'.frame == t.frame
      && t'.pending == frameStart - t.starts[|t.starts| - 1 - back]
      && -REACQUIRE_PHASE_US <= t'.pending <= REACQUIRE_PHASE_US
      && Within(Epoch(t') + t'.pending, frameStart - FRAME_US * (t.frame - back), QUANTUM_US * (back + 1))
  {
    LookupExact(t, frameCounter, back);
    EpochOfBoundary(t, back);
    SyncKeepsLedger(t, true, frameCounter, driftPpm, frameStart, now1, now2);
  }

  /**
    In a frame that one node begins at fa and another at fb the windows of two slots, and the control window, do not
    touch, whichever node keeps which; and control windows end before any next frame can begin.
    */
  predicate WindowsApart(fa: int, fb: int, i: nat, j: nat) {
    && SlotDeadline(fa, i) < SlotStart(fb, j) && SlotDeadline(fb, i) < SlotStart(fa, j)
    && SlotDeadline(fa, j) < ControlStart(fb) && SlotDeadline(fb, j) < ControlStart(fa)
    && ControlDeadline(fa) < fb + FRAME_US - QUANTUM_US && ControlDeadline(fb) < fa + FRAME_US - QUANTUM_US
  }

  /**
    Two nodes that begin a frame less than the guard apart never own the air together. A SYNC brings them that close
    under the condition of SyncSeparatesWindows.
    */
  lemma WindowsDisjoint(fa: int, fb: int, i: nat, j: nat)
    requires -GUARD_US < fa - fb < GUARD_US
    requires i < j < MAX_NODES
    ensures WindowsApart(fa, fb, i, j)
  {
  }

  /**
    How the receiver sees a sender's frames: frame m after one that began at `start`, when each lasts 20 ms and
    `drift` millionths of a microsecond on the receiver's clock.
    */
  predicate SentAt(start: int, m: nat, drift: int, sent: int) {
    Within(MILLION * (sent - start - FRAME_US * m), drift * m, MILLION - 1)
  }

  /**
    The drift between two clocks, in millionths of a microsecond: over n frames the part that the receiver does not
    correct for, and all of it over the frames before.
    */
  function DriftError(scaled: int, drift: int, n: nat, before: nat): nat {
    Abs(scaled - drift) * n + Abs(drift) * before
  }

  /**
    How far apart sender and receiver can begin a frame, from the first to the last frame after a SYNC: a quantum for
    every frame that the SYNC is old and one more, the error of its time stamp, what is still pending, and the drift.
    */
  function FrameError(back: nat, error: nat, phase: int, scaled: int, drift: int, first: nat, last: nat): nat
    requires first > 0
  {
    QUANTUM_US * (back + 1) + error + PendingLeft(phase, scaled, first - 1) + 3
      + DriftError(scaled, drift, last, back + 1) / MILLION
  }

  /**
    A node that recorded the sender's frame `back` frames ago hears its SYNC, which puts the beginning of that frame at
    `frameStart`, with an error of at most `error`; it adjusts its phase by `phase`, and ticks on promptly.
    */
  ghost predicate Synchronized(t: Timing, start: int, frameStart: int, driftPpm: int, back: nat, error: nat,
                               phase: int, nows: seq<int>, after: Timing)
  {
    && Inv(t) && back < HISTORY && back < |t.starts| && Within(frameStart, start, error)
    && Judge(t, true, WireBack(t.frame, back), frameStart) == Adjust(phase)
    && var synced := Synced(t, true, WireBack(t.frame, back), driftPpm, frameStart, 0, 0);
       AllPrompt(synced, nows) && nows != [] && after == Ticks(synced, nows)
  }

  lemma AbsTimes(x: int, n: nat)
    ensures Abs(x * n) == Abs(x) * n
  {
  }

  lemma DriftsPart(scaled: int, drift: int, m: nat, n: nat, before: nat)
    requires m == before + n
    ensures n * scaled - drift * m == (scaled - drift) * n - drift * before
  {
  }

  /** A sender's frame deviates from the receiver's drift correction by their difference and the frames before. */
  lemma SentDeviates(start: int, m: nat, drift: int, sent: int, scaled: int, n: nat, before: nat)
    requires SentAt(start, m, drift, sent) && m == before + n
    ensures Abs(MILLION * (sent - start - FRAME_US * m) - n * scaled)
              <= MILLION - 1 + DriftError(scaled, drift, n, before)
  {
    AbsTimes(scaled - drift, n);
    AbsTimes(drift, before);
    DriftsPart(scaled, drift, m, n, before);
  }

  lemma DriftErrorGrows(scaled: int, drift: int, n: nat, last: nat, before: nat)
    requires n <= last
    ensures DriftError(scaled, drift, n, before) <= DriftError(scaled, drift, last, before)
  {
    TimesMonotone(Abs(scaled - drift), n, last);
  }

  /** Deviations in microseconds and in millionths of these, added up. */
  lemma DeviationsAdd(whole: int, moved: int, left: int, sent: int, part: nat, limit: nat)
    requires Abs(whole) <= limit && Abs(MILLION * moved - left) < 2 * MILLION
    requires Abs(MILLION * sent - left) <= MILLION - 1 + part
    ensures Abs(whole + moved - sent) <= limit + 3 + part / MILLION
  {
  }

  lemma FrameDeviates(whole: int, limit: nat, moved: int, start: int, m: nat, drift: int, sent: int,
                      scaled: int, n: nat, before: nat)
    requires Abs(whole) <= limit && Abs(MILLION * moved - n * scaled) < 2 * MILLION
    requires SentAt(start, m, drift, sent) && m == before + n
    ensures Abs(start + FRAME_US * m + whole + moved - sent)
              <= limit + 3 + DriftError(scaled, drift, n + 1, before) / MILLION
  {
    SentDeviates(start, m, drift, sent, scaled, n, before);
    DriftErrorGrows(scaled, drift, n, n + 1, before);
    DeviationsAdd(whole, moved, n * scaled, sent - start - FRAME_US * m,
                  DriftError(scaled, drift, n + 1, before), limit);
  }

  /** What the SYNC itself does. */
  lemma SyncAdjusts(t: Timing, start: int, frameStart: int, driftPpm: int, back: nat, error: nat,
                    phase: int, nows: seq<int>, after: Timing)
    returns (synced: Timing)
    requires Synchronized(t, start, frameStart, driftPpm, back, error, phase, nows, after)
    ensures synced == t.(pending := phase, drift := driftPpm) && Inv(synced) && Roomy(synced)
    ensures AllPrompt(synced, nows) && after == Ticks(synced, nows)
    ensures Abs(Epoch(synced) + phase - (start - FRAME_US * (t.frame - back))) <= QUANTUM_US * (back + 1) + error
  {
    SyncBoundsEpoch(t, WireBack(t.frame, back), driftPpm, frameStart, 0, 0, back);
    RateWithin(driftPpm, 0);
    synced := Synced(t, true, WireBack(t.frame, back), driftPpm, frameStart, 0, 0);
  }

  lemma RateMoved(t: Timing, u: Timing, n: nat)
    requires Inv(t) && Follows(t, u, n)
    ensures Abs(MILLION * (u.rateTotal - t.rateTotal) - n * Scaled(t.drift)) < 2 * MILLION
    ensures u.next == Epoch(t) + t.pending + FRAME_US * (t.frame + n + 1) + (u.rateTotal - t.rateTotal) - u.pending
  {
  }

  /** Where the last of some prompt ticks begins its frame: moved by the drift corrections, less what is pending. */
  lemma FrameBegins(t: Timing, nows: seq<int>) returns (moved: int, left: int)
    requires Inv(t) && Roomy(t) && AllPrompt(t, nows) && nows != []
    ensures Ticks(t, nows).frame == t.frame + |nows|
    ensures Ticks(t, nows).frameStart == Epoch(t) + t.pending + FRAME_US * (t.frame + |nows|) + moved - left
    ensures Abs(left) <= PendingLeft(t.pending, Scaled(t.drift), |nows| - 1)
    ensures Abs(MILLION * moved - (|nows| - 1) * Scaled(t.drift)) < 2 * MILLION
  {
    var front := nows[..|nows| - 1];
    DriftIsFollowed(t, front);
    var u := Ticks(t, front);
    RateMoved(t, u, |front|);
    StaysRoomy(t, u, |front|);
    PromptTick(u, nows[|nows| - 1]);
    moved, left := u.rateTotal - t.rateTotal, u.pending;
  }

  /** Both together: `moved` is what the drift corrections did, the rest is bounded. */
  lemma SyncMoves(t: Timing, start: int, frameStart: int, driftPpm: int, back: nat, error: nat,
                  phase: int, nows: seq<int>, after: Timing)
    returns (moved: int)
    requires Synchronized(t, start, frameStart, driftPpm, back, error, phase, nows, after)
    ensures after.frame == t.frame + |nows|
    ensures Abs(after.frameStart - start - FRAME_US * (back + |nows|) - moved)
              <= QUANTUM_US * (back + 1) + error + PendingLeft(phase, Scaled(driftPpm), |nows| - 1)
    ensures Abs(MILLION * moved - (|nows| - 1) * Scaled(driftPpm)) < 2 * MILLION
  {
    var synced := SyncAdjusts(t, start, frameStart, driftPpm, back, error, phase, nows, after);
    var left;
    moved, left := FrameBegins(synced, nows);
  }

  /**
    From the first frame after a SYNC on, receiver and sender begin each frame within the stated error: frame
    t.frame - back of the sender is the one the SYNC is about, so its frame t.frame + |nows| comes back + |nows| later.
    */
  lemma SyncTracksSender(t: Timing, start: int, frameStart: int, driftPpm: int, back: nat, error: nat,
                         phase: int, nows: seq<int>, after: Timing, drift: int, sent: int)
    requires Synchronized(t, start, frameStart, driftPpm, back, error, phase, nows, after)
    requires SentAt(start, back + |nows|, drift, sent)
    ensures after.frame == t.frame + |nows|
    ensures Abs(after.frameStart - sent)
              <= FrameError(back, error, phase, Scaled(driftPpm), drift, |nows|, |nows|)
  {
    var n, scaled := |nows|, Scaled(driftPpm);
    var moved := SyncMoves(t, start, frameStart, driftPpm, back, error, phase, nows, after);
    FrameDeviates(after.frameStart - start - FRAME_US * (back + n) - moved,
                  QUANTUM_US * (back + 1) + error + PendingLeft(phase, scaled, n - 1), moved,
                  start, back + n, drift, sent, scaled, n - 1, back + 1);
  }

  /**
    While that error stays below the guard the two nodes never own the air together, whatever the drift between their
    oscillators. With SYNCs every ten frames that announce no drift, oscillators 50 ppm apart and any phase that is
    not reacquired, this holds from the sixth frame on for a SYNC one frame old read to 100 us, and for one two frames
    old read without error; and from the first frame on when the phase was below a quantum.
    */
  lemma SyncSeparatesWindows(t: Timing, start: int, frameStart: int, driftPpm: int, back: nat, error: nat,
                             phase: int, nows: seq<int>, after: Timing, drift: int, sent: int,
                             first: nat, last: nat, i: nat, j: nat)
    requires Synchronized(t, start, frameStart, driftPpm, back, error, phase, nows, after)
    requires SentAt(start, back + |nows|, drift, sent)
    requires 0 < first <= |nows| <= last && i < j < MAX_NODES
    requires FrameError(back, error, phase, Scaled(driftPpm), drift, first, last) < GUARD_US
    ensures WindowsApart(after.frameStart, sent, i, j)
  {
    SyncTracksSender(t, start, frameStart, driftPpm, back, error, phase, nows, after, drift, sent);
    RateWithin(driftPpm, 0);
    PendingLeftFalls(phase, Scaled(driftPpm), first - 1, |nows| - 1);
    DriftErrorGrows(Scaled(driftPpm), drift, |nows|, last, back + 1);
    WindowsDisjoint(after.frameStart, sent, i, j);
  }

  const SYNC_INTERVAL_FRAMES := 10

  /** Oscillators up to 50 ppm apart, with SYNCs that announce no drift as the firmware's do. */
  lemma GuardSuffices(phase: int, drift: int)
    requires Abs(phase) <= REACQUIRE_PHASE_US && Abs(drift) <= 50 * FRAME_US
    ensures FrameError(1, 100, phase, Scaled(0), drift, 6, SYNC_INTERVAL_FRAMES) < GUARD_US
    ensures FrameError(2, 0, phase, Scaled(0), drift, 6, SYNC_INTERVAL_FRAMES) < GUARD_US
    ensures Abs(phase) < QUANTUM_US ==> FrameError(1, 100, phase, Scaled(0), drift, 1, SYNC_INTERVAL_FRAMES) < GUARD_US
  {
  }
}
