/**
  The TDMA frame clock of the nRF over unbounded frame numbers.

  `Epoch` is the instant frame 0 would have begun had every frame lasted exactly 20 ms.
  Ticks may only move it by the corrections they apply, and a SYNC acquisition sets it to
  the coordinator's own.
  */
module TdmaSpec {
  import opened Common

  const FRAME_US := 20000
  const SLOT_US := 2000
  const GUARD_US := 500
  const MAX_NODES := 8
  const CONTROL_WINDOW_US := 2000
  const QUANTUM_US := 100
  const MAX_PENDING_US := 2000
  const MAX_DRIFT_PPM := 5000
  const REACQUIRE_FRAMES := 4
  const REACQUIRE_PHASE_US := 500
  const HISTORY := 16
  const MILLION := 1000000
  const WRAP := 0x1_0000_0000

  /**
    `starts` are the frame boundaries recorded since the history was last invalidated, the
    newest last; `applied`, `rateTotal` and `driftTotal` add up what the ticks did since
    the last start or acquisition, and `base` is the epoch that one set.
    */
  datatype Timing = Timing(
    frame: int,
    frameStart: int,
    next: int,
    pending: int,
    drift: int,
    residual: int,
    starts: seq<int>,
    base: int,
    applied: int,
    rateTotal: int,
    driftTotal: int)

  function Epoch(t: Timing): int { t.next - FRAME_US * (t.frame + 1) }

  // ------------------------------------------------------------------ tick

  /** set_rate_correction_locked: the drift of one frame in millionths of a microsecond. */
  function Scaled(driftPpm: int): int {
    Clamp(driftPpm, -MAX_DRIFT_PPM, MAX_DRIFT_PPM) * FRAME_US
  }

  function RateWhole(driftPpm: int): int { TruncDiv(Scaled(driftPpm), MILLION) }

  function RateFraction(driftPpm: int): int { TruncMod(Scaled(driftPpm), MILLION) }

  /** One tick's whole-microsecond rate correction and the residual it leaves. */
  function RateStep(driftPpm: int, residual: int): (int, int) {
    var r := residual + RateFraction(driftPpm);
    if r >= MILLION then (RateWhole(driftPpm) + 1, r - MILLION)
    else if r <= -MILLION then (RateWhole(driftPpm) - 1, r + MILLION)
    else (RateWhole(driftPpm), r)
  }

  function ClampPending(us: int): int { Clamp(us, -MAX_PENDING_US, MAX_PENDING_US) }

  /** Whole frames that passed before a late callback ran. */
  function Skipped(next: int, now: int): nat {
    if next + FRAME_US <= now then (now - next) / FRAME_US else 0
  }

  /** The correction one frame can absorb: a timer quantum in the direction of what is pending. */
  function Wanted(pending: int): int {
    if pending >= QUANTUM_US then QUANTUM_US else if pending <= -QUANTUM_US then -QUANTUM_US else 0
  }

  /** Applied unless the shortened boundary has already passed. */
  function AppliedBy(pending: int, frameStart: int, now: int): int {
    if frameStart + FRAME_US + Wanted(pending) <= now then 0 else Wanted(pending)
  }

  function Boundaries(next: int, count: nat): (s: seq<int>)
    ensures |s| == count
    ensures forall i :: 0 <= i < count ==> s[i] == next + i * FRAME_US
  {
    seq(count, i requires 0 <= i < count => next + i * FRAME_US)
  }

  /** frame_timer_handler. */
  function Tick(t: Timing, now: int): Timing {
    var skipped := Skipped(t.next, now);
    var frameStart := t.next + skipped * FRAME_US;
    var (rate, residual) := RateStep(t.drift, t.residual);
    var pending := ClampPending(t.pending + rate);
    var applied := AppliedBy(pending, frameStart, now);
    t.(frame := t.frame + 1 + skipped,
       frameStart := frameStart,
       next := frameStart + FRAME_US + applied,
       pending := pending - applied,
       residual := residual,
       starts := if skipped >= HISTORY then [frameStart] else t.starts + Boundaries(t.next, skipped + 1),
       applied := t.applied + applied,
       rateTotal := t.rateTotal + rate,
       driftTotal := t.driftTotal + Scaled(t.drift))
  }

  /** tdma_tune_timing. */
  function Tuned(t: Timing, offset: int): Timing {
    t.(pending := ClampPending(t.pending + offset))
  }

  // ------------------------------------------------------------------- sync

  /** Move a boundary that has already ended forward by whole frames. */
  function CaughtUp(frame: int, start: int, next: int, now: int): (r: (int, int, int)) {
    if next <= now then
      var elapsed := (now - next) / FRAME_US + 1;
      (frame + elapsed, next + (elapsed - 1) * FRAME_US, next + elapsed * FRAME_US)
    else (frame, start, next)
  }

  /** acquire_sync, with the clock read before and after the timers were stopped. */
  function Acquired(t: Timing, frameCounter: nat, driftPpm: int, frameStart: int, now1: int, now2: int): Timing {
    var (f1, s1, n1) := CaughtUp(frameCounter, frameStart, frameStart + FRAME_US, now1);
    var (f2, s2, n2) := CaughtUp(f1, s1, n1, now2);
    Timing(f2, s2, n2, 0, driftPpm, 0, [s2], frameStart - FRAME_US * frameCounter, 0, 0, 0)
  }

  /** tdma_start. */
  function Started(now: int): Timing {
    Timing(0, now, now + FRAME_US, 0, 0, 0, [now], now, 0, 0, 0)
  }

  /** The 32-bit counter a frame number travels as. */
  function WireFrame(frame: int): nat { frame % WRAP }

  /** The counter of the frame `back` frames before this one. */
  function WireBack(frame: int, back: nat): nat { WireFrame(frame - back) }

  /** The boundary recorded for a wire frame counter among the last sixteen frames. */
  function Lookup(t: Timing, frameCounter: nat): Option<int> {
    LookupFrom(t, frameCounter, 0)
  }

  function LookupFrom(t: Timing, frameCounter: nat, back: nat): Option<int>
    decreases HISTORY - back
  {
    if back >= HISTORY || back >= |t.starts| then None
    else if WireBack(t.frame, back) == frameCounter then Some(t.starts[|t.starts| - 1 - back])
    else LookupFrom(t, frameCounter, back + 1)
  }

  /** The signed 32-bit difference of two wire counters. */
  function FrameDiff(frameCounter: nat, frame: int): int {
    var d := (frameCounter - frame) % WRAP;
    if d < 0x8000_0000 then d else d - WRAP
  }

  datatype Verdict = Acquire | Reacquire | HistoryMiss | Adjust(phase: int)

  /** tdma_sync up to its action. */
  function Judge(t: Timing, synchronized: bool, frameCounter: nat, frameStart: int): Verdict {
    if !synchronized then Acquire
    else if FrameDiff(frameCounter, t.frame) > REACQUIRE_FRAMES || FrameDiff(frameCounter, t.frame) < -REACQUIRE_FRAMES
    then Reacquire
    else
      match Lookup(t, frameCounter)
      case None => HistoryMiss
      case Some(local) =>
        var phase := ClampPending(frameStart - local);
        if phase > REACQUIRE_PHASE_US || phase < -REACQUIRE_PHASE_US then Reacquire else Adjust(phase)
  }

  function Synced(t: Timing, synchronized: bool, frameCounter: nat, driftPpm: int, frameStart: int,
                  now1: int, now2: int): Timing
  {
    match Judge(t, synchronized, frameCounter, frameStart)
    case HistoryMiss => t
    case Adjust(phase) => t.(pending := phase, drift := driftPpm)
    case _ => Acquired(t, frameCounter, driftPpm, frameStart, now1, now2)
  }

  // ------------------------------------------------------------- invariants

  /** Two boundaries one frame apart, give or take a timer quantum. */
  predicate NextFrame(a: int, b: int) { FRAME_US - QUANTUM_US <= b - a <= FRAME_US + QUANTUM_US }

  /** The clock ledger, and a history of consecutive frames. */
  ghost predicate Inv(t: Timing) {
    && Epoch(t) == t.base + t.applied
    && -MAX_PENDING_US <= t.pending <= MAX_PENDING_US
    && -MILLION < t.residual < MILLION
    && MILLION * t.rateTotal + t.residual == t.driftTotal
    && t.starts != [] && t.starts[|t.starts| - 1] == t.frameStart
    && NextFrame(t.frameStart, t.next)
    && forall k :: 0 <= k < |t.starts| - 1 ==> NextFrame(t.starts[k], t.starts[k + 1])
  }
}
