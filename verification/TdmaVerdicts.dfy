/**
  What a SYNC, a tuning and a late tick do to the clock, told in counters and times.
  */
module TdmaVerdicts {
  import opened Common
  import opened TdmaSpec
  import opened TdmaRuns

  /** The clock has recorded where frame f began. */
  predicate Recorded(t: Timing, f: int) { f <= t.frame < f + HISTORY && t.frame - f < |t.starts| }

  /** Where it did. */
  function StartOf(t: Timing, f: int): int
    requires Recorded(t, f)
  {
    t.starts[|t.starts| - 1 - (t.frame - f)]
  }

  /** Frame numbers less than 2^31 apart are told apart by their counters, with their sign. */
  lemma FrameDiffIs(f: int, frame: int)
    requires -0x8000_0000 <= f - frame < 0x8000_0000
    ensures FrameDiff(WireFrame(f), frame) == f - frame
  {
  }

  lemma LookupIs(t: Timing, f: int)
    requires -0x8000_0000 <= f - t.frame < 0x8000_0000
    ensures Lookup(t, WireFrame(f)) == if Recorded(t, f) then Some(StartOf(t, f)) else None
  {
    if Recorded(t, f) {
      LookupExact(t, WireFrame(f), t.frame - f);
    } else {
      forall back: nat | back < HISTORY && back < |t.starts|
        ensures WireBack(t.frame, back) != WireFrame(f)
      {
        OtherFrame(t.frame - back, f);
      }
      LookupMisses(t, WireFrame(f), 0);
    }
  }

  lemma OtherFrame(f: int, g: int)
    requires f != g && -WRAP < f - g < WRAP
    ensures WireFrame(f) != WireFrame(g)
  {
  }

  /**
    A SYNC about frame f re-acquires the clock exactly if f is more than four frames off, or began more than 500 us
    from where it was recorded; if it was not recorded nothing happens, and otherwise the whole difference is pending.
    */
  lemma SyncVerdict(t: Timing, f: int, frameStart: int)
    requires -0x8000_0000 <= f - t.frame < 0x8000_0000
    ensures Judge(t, false, WireFrame(f), frameStart) == Acquire
    ensures Judge(t, true, WireFrame(f), frameStart) ==
              if Abs(f - t.frame) > 4 then Reacquire
              else if !Recorded(t, f) then HistoryMiss
              else if Abs(frameStart - StartOf(t, f)) > 500 then Reacquire
              else Adjust(frameStart - StartOf(t, f))
  {
    FrameDiffIs(f, t.frame);
    LookupIs(t, f);
  }

  /** What follows from the verdict: the sender's epoch, nothing, or the new phase and drift. */
  lemma SyncEffect(t: Timing, synchronized: bool, f: nat, driftPpm: int, frameStart: int, now1: int, now2: int)
    requires Inv(t) && -0x8000_0000 <= f - t.frame < 0x8000_0000 && f < WRAP
    ensures var t' := Synced(t, synchronized, f, driftPpm, frameStart, now1, now2);
      if !synchronized || Abs(f - t.frame) > 4 || (Recorded(t, f) && Abs(frameStart - StartOf(t, f)) > 500) then
        && Epoch(t') == frameStart - FRAME_US * f && t'.next > now2 && t'.pending == 0 && t'.drift == driftPpm
        && t'.residual == 0
      else if Recorded(t, f) then t' == t.(pending := frameStart - StartOf(t, f), drift := driftPpm)
      else t' == t
  {
    assert WireFrame(f) == f;
    SyncVerdict(t, f, frameStart);
    AcquireAdoptsEpoch(t, f, driftPpm, frameStart, now1, now2);
  }

  /** An acquisition catches up to the frame that is running and no further. */
  lemma AcquireCatchesUp(t: Timing, frameCounter: nat, driftPpm: int, frameStart: int, now1: int, now2: int)
    requires now1 <= now2
    ensures var t' := Acquired(t, frameCounter, driftPpm, frameStart, now1, now2);
      && t'.frameStart == frameStart + FRAME_US * (t'.frame - frameCounter) && t'.next == t'.frameStart + FRAME_US
      && t'.frame >= frameCounter && (t'.frame > frameCounter ==> t'.frameStart <= now2 < t'.next)
      && t'.starts == [t'.frameStart]
  {
  }

  /** Neither does a tick, however late it is: it begins the frame that is running, and the next one is ahead. */
  lemma TickCatchesUp(t: Timing, now: int)
    requires Inv(t) && now >= t.next
    ensures var t' := Tick(t, now);
      && t'.frameStart <= now < t'.next && t'.frameStart == t.next + FRAME_US * (t'.frame - t.frame - 1)
  {
    TickKeepsLedger(t, now);
  }

  /**
    A tick that missed fewer than sixteen frames records all it begins, at 20 ms each, and forgets none of the last
    sixteen; one that missed more knows only the frame that is running.
    */
  lemma TickRecords(t: Timing, now: int, f: int)
    requires Inv(t)
    ensures var t' := Tick(t, now);
      f <= t'.frame < f + 16 ==>
        if now < t.next + 16 * 20000 then
          && (Recorded(t', f) <==> f > t.frame || Recorded(t, f))
          && (f > t.frame ==> StartOf(t', f) == t.next + 20000 * (f - t.frame - 1))
          && (f <= t.frame && Recorded(t, f) ==> StartOf(t', f) == StartOf(t, f))
        else Recorded(t', f) <==> f == t'.frame
  {
    var skipped := Skipped(t.next, now);
    assert now < t.next + 16 * 20000 <==> skipped < 16;
    var b := Boundaries(t.next, skipped + 1);
    var t' := Tick(t, now);
    if skipped < 16 && f <= t'.frame < f + 16 && Recorded(t', f) {
      var k := |t'.starts| - 1 - (t'.frame - f);
      assert t'.starts[k] == if f > t.frame then b[f - t.frame - 1] else t.starts[k];
    }
  }

  /** Without a drift a positive offset delays the frames to come, a negative one brings them forward, by all of it. */
  lemma TuningMovesEpoch(t: Timing, offset: int, nows: seq<int>)
    requires Inv(t) && t.drift == 0 && AllPrompt(Tuned(t, offset), nows)
    requires Abs(t.pending + offset) <= 2000 && 100 * |nows| >= Abs(t.pending + offset)
    ensures var u := Ticks(Tuned(t, offset), nows);
      && Epoch(u) + u.pending == Epoch(t) + t.pending + offset && Abs(u.pending) < 100
      && Abs(Epoch(u) - (Epoch(t) + t.pending + offset)) < 100
  {
    var tuned := Tuned(t, offset);
    TunedPending(t, offset);
    PhaseErrorIsApplied(tuned, nows);
    WorkedOffAtLast(Ticks(tuned, nows).pending, tuned.pending, |nows|);
  }

  lemma TunedPending(t: Timing, offset: int)
    requires Inv(t) && Abs(t.pending + offset) <= 2000
    ensures Inv(Tuned(t, offset)) && Tuned(t, offset) == t.(pending := t.pending + offset)
  {
  }

  lemma WorkedOffAtLast(pending: int, start: int, n: nat)
    requires WorkedOff(pending, start, n) && 100 * n >= Abs(start)
    ensures Abs(pending) < 100
  {
  }

  /** Slots of 2 ms fill a frame from its start, then the control window comes; each ends half a millisecond early. */
  lemma WindowsTileFrame(frameStart: int, slot: nat)
    requires slot < 8
    ensures SlotStart(frameStart, 0) == frameStart
    ensures SlotStart(frameStart, slot + 1) == SlotStart(frameStart, slot) + 2000
    ensures SlotDeadline(frameStart, slot) == SlotStart(frameStart, slot + 1) - 500
    ensures ControlStart(frameStart) == SlotStart(frameStart, 8) && ControlDeadline(frameStart) == frameStart + 17500
  {
  }

  /** More than 2 ms is never pending: an offset beyond that is cut off. */
  lemma TuningIsBounded(t: Timing, offset: int)
    requires Inv(t)
    ensures Inv(Tuned(t, offset))
    ensures t.pending + offset > 2000 ==> Tuned(t, offset).pending == 2000
    ensures t.pending + offset < -2000 ==> Tuned(t, offset).pending == -2000
  {
  }

  /** The drift corrected for is the announced one, up to 5000 ppm either way: so much of each frame of 20 ms. */
  lemma DriftIsBounded(driftPpm: int)
    ensures Scaled(driftPpm) == 20000 * Clamp(driftPpm, -5000, 5000)
  {
  }
}
