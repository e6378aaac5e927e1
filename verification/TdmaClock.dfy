/**
  The TDMA frame clock as the firmware keeps it: a wrapping frame counter, two deadlines, a
  pending correction, a rate split into whole and fractional microseconds, and a
  sixteen-entry history ring. Every method is proved to act on module TdmaSpec's timing.
  */
module TdmaClock {
  import opened Common
  import opened TdmaSpec
  import opened TdmaRuns

  // ---------------------------------------------------------------- history

  datatype Boundary = Boundary(frameCounter: nat, startUs: int, valid: bool)

  /** Index of the entry recorded `back` records before the newest. */
  function Back(head: nat, back: nat): (i: nat)
    requires head < HISTORY && back < HISTORY
    ensures i < HISTORY
  {
    if back < head then head - 1 - back else head + HISTORY - 1 - back
  }

  /** The ring holds the newest sixteen boundaries and nothing else is valid. */
  ghost predicate HistoryIs(history: seq<Boundary>, head: nat, starts: seq<int>, frame: int) {
    && |history| == HISTORY && head < HISTORY
    && forall back :: 0 <= back < HISTORY ==>
         if back < |starts| then
           history[Back(head, back)] == Boundary(WireBack(frame, back), starts[|starts| - 1 - back], true)
         else !history[Back(head, back)].valid
  }

  lemma BackStep(head: nat, next: nat, back: nat)
    requires head < HISTORY && next == (head + 1) % HISTORY && back < HISTORY
    ensures Back(next, 0) == head
    ensures back > 0 ==> Back(next, back) == Back(head, back - 1) && Back(next, back) != head
  {
  }

  /** Every index is some record back. */
  lemma BackOf(head: nat, i: nat) returns (back: nat)
    requires head < HISTORY && i < HISTORY
    ensures back < HISTORY && Back(head, back) == i
  {
    back := Back(head, i);
  }

  lemma RecordHolds(history: seq<Boundary>, head: nat, starts: seq<int>, frame: int, start: int)
    requires HistoryIs(history, head, starts, frame)
    ensures HistoryIs(history[head := Boundary(WireFrame(frame + 1), start, true)], (head + 1) % HISTORY,
                      starts + [start], frame + 1)
  {
    var next := (head + 1) % HISTORY;
    forall back | 0 <= back < HISTORY
      ensures Back(next, 0) == head
      ensures back > 0 ==> Back(next, back) == Back(head, back - 1) && Back(next, back) != head
    {
      BackStep(head, next, back);
    }
  }

  lemma WireNext(frame: int, k: nat)
    ensures (WireFrame(frame) + k) % WRAP == WireFrame(frame + k)
  {
  }

  lemma BoundariesNext(starts: seq<int>, next: int, n: nat)
    ensures starts + Boundaries(next, n) + [next + n * FRAME_US] == starts + Boundaries(next, n + 1)
  {
  }

  /** A started clock has its first boundary on record and nothing pending. */
  lemma StartedInv(now: int)
    ensures Inv(Started(now))
    ensures RateWhole(0) == 0 && RateFraction(0) == 0 && WireFrame(0) == 0
  {
  }

  // ------------------------------------------------------------------ clock

  datatype StartVerdict = StartOk | InvalidSlot | AlreadyRunning

  class Clock {
    var frameCounter: nat
    var frameStartUs: int
    var pendingCorrectionUs: int
    var rateWholeUs: int
    var rateFraction: int
    var rateResidual: int
    var slotIndex: int
    var running: bool
    var synchronized: bool
    var timerQuiesced: bool
    var generation: nat
    var nextFrameDeadlineUs: int
    var slotStartUs: int
    var slotDeadlineUs: int
    var controlStartUs: int
    var controlDeadlineUs: int
    const history: array<Boundary>
    var historyHead: nat

    /** The timing of TdmaSpec that these fields stand for. */
    ghost var spec: Timing

    ghost predicate HistoryOk(starts: seq<int>, frame: int)
      reads this`historyHead, history
    {
      HistoryIs(history[..], historyHead, starts, frame)
    }

    ghost predicate RateIs(t: Timing)
      reads this`rateWholeUs, this`rateFraction, this`rateResidual
    {
      rateWholeUs == RateWhole(t.drift) && rateFraction == RateFraction(t.drift) && rateResidual == t.residual
    }

    ghost predicate FrameIs(t: Timing)
      reads this`frameCounter, this`frameStartUs, this`pendingCorrectionUs, this`nextFrameDeadlineUs
    {
      && frameCounter == WireFrame(t.frame) && frameStartUs == t.frameStart
      && pendingCorrectionUs == t.pending && nextFrameDeadlineUs == t.next
    }

    /** The fields stand for the timing. */
    ghost predicate Timed()
      reads this, history
    {
      Inv(spec) && HistoryOk(spec.starts, spec.frame) && RateIs(spec) && FrameIs(spec)
    }

    /** A stopped clock keeps whatever it has until it is started. */
    ghost predicate Valid()
      reads this, history
    {
      history.Length == HISTORY && (running ==> Timed())
    }

    /** Static memory: a clock that was never started. */
    constructor ()
      ensures Valid() && !running && !synchronized && generation == 0 && fresh(history)
    {
      history := new Boundary[HISTORY](_ => Boundary(0, 0, false));
      historyHead := 0;
      frameCounter, frameStartUs, nextFrameDeadlineUs := 0, 0, 0;
      pendingCorrectionUs, rateWholeUs, rateFraction, rateResidual := 0, 0, 0, 0;
      slotIndex, slotStartUs, slotDeadlineUs, controlStartUs, controlDeadlineUs := -1, 0, 0, 0, 0;
      running, synchronized, timerQuiesced, generation := false, false, false, 0;
      spec := Started(0);
    }

    /**
      tdma_start, for the first time or after a stop, with the clock read twice: all that the last run left is
      forgotten but the generation, so an acquisition begun before is overtaken.
      */
    method Start(slot: int, isSynchronized: bool, nowUs: int, armNowUs: int)
      returns (verdict: StartVerdict, frameDelay: int)
      requires Valid()
      modifies this, history
      ensures Valid()
      ensures verdict == if !(0 <= slot < MAX_NODES) then InvalidSlot
                         else if old(running) then AlreadyRunning else StartOk
      ensures verdict == StartOk ==>
                && spec == Started(nowUs) && running && !timerQuiesced && synchronized == isSynchronized
                && slotIndex == slot && generation == old(generation) + 1
                && frameDelay == Max(spec.next - armNowUs, QUANTUM_US)
      ensures verdict != StartOk ==> unchanged(this) && unchanged(history)
    {
      if slot < 0 || slot >= MAX_NODES {
        return InvalidSlot, 0;
      }
      if running {
        return AlreadyRunning, 0;
      }
      slotIndex := slot;
      RestartTiming(nowUs);
      generation := generation + 1;
      running, synchronized, timerQuiesced := true, isSynchronized, false;
      spec := Started(nowUs);
      return StartOk, Max(nextFrameDeadlineUs - armNowUs, QUANTUM_US);
    }

    /** Its part on counter, deadlines, corrections and history. */
    method RestartTiming(nowUs: int)
      requires history.Length == HISTORY
      modifies this`frameCounter, this`frameStartUs, this`nextFrameDeadlineUs, this`pendingCorrectionUs,
        this`rateWholeUs, this`rateFraction, this`rateResidual, this`historyHead, history
      ensures FrameIs(Started(nowUs)) && RateIs(Started(nowUs)) && Inv(Started(nowUs))
      ensures HistoryOk(Started(nowUs).starts, Started(nowUs).frame)
    {
      StartedInv(nowUs);
      frameCounter, frameStartUs := 0, nowUs;
      RestartHistory(0, nowUs, 0);
      nextFrameDeadlineUs := frameStartUs + FRAME_US;
      pendingCorrectionUs := 0;
      SetRateCorrection(0);
      rateResidual := 0;
    }

    /** frame_history_invalidate_locked. */
    method InvalidateHistory(ghost frame: int)
      requires history.Length == HISTORY
      modifies this`historyHead, history
      ensures HistoryOk([], frame)
    {
      for i := 0 to HISTORY
        invariant forall j :: 0 <= j < i ==> !history[j].valid
      {
        history[i] := history[i].(valid := false);
      }
      historyHead := 0;
    }

    /** frame_history_record_locked. */
    method RecordHistory(counter: nat, startUs: int, ghost starts: seq<int>, ghost frame: int)
      requires HistoryOk(starts, frame) && counter == WireFrame(frame + 1)
      modifies this`historyHead, history
      ensures HistoryOk(starts + [startUs], frame + 1)
    {
      RecordHolds(history[..], historyHead, starts, frame, startUs);
      history[historyHead] := Boundary(counter, startUs, true);
      historyHead := (historyHead + 1) % HISTORY;
    }

    /** The history of a clock that starts over with one boundary. */
    method RestartHistory(counter: nat, startUs: int, ghost frame: int)
      requires history.Length == HISTORY && counter == WireFrame(frame)
      modifies this`historyHead, history
      ensures HistoryOk([startUs], frame)
    {
      InvalidateHistory(frame - 1);
      RecordHistory(counter, startUs, [], frame - 1);
      assert [] + [startUs] == [startUs];
    }

    /** frame_history_lookup_locked. */
    method LookupHistory(counter: nat) returns (start: Option<int>)
      requires Timed()
      ensures start == Lookup(spec, counter)
    {
      for i := 0 to HISTORY
        invariant forall j :: 0 <= j < i ==> !(history[j].valid && history[j].frameCounter == counter)
      {
        if history[i].valid && history[i].frameCounter == counter {
          var back := BackOf(historyHead, i);
          assert history[..][Back(historyHead, back)] == history[i];
          LookupExact(spec, counter, back);
          return Some(history[i].startUs);
        }
      }
      forall back | 0 <= back < HISTORY && back < |spec.starts|
        ensures WireBack(spec.frame, back) != counter
      {
        assert history[..][Back(historyHead, back)].valid;
        assert history[Back(historyHead, back)].valid;
      }
      LookupMisses(spec, counter, 0);
      return None;
    }

    /** set_rate_correction_locked. */
    method SetRateCorrection(driftPpm: int)
      modifies this`rateWholeUs, this`rateFraction
      ensures rateWholeUs == RateWhole(driftPpm) && rateFraction == RateFraction(driftPpm)
    {
      var scaled := Clamp(driftPpm, -MAX_DRIFT_PPM, MAX_DRIFT_PPM) * FRAME_US;
      rateWholeUs := TruncDiv(scaled, MILLION);
      rateFraction := TruncMod(scaled, MILLION);
    }

    /** The skipped-frame loop of frame_timer_handler: count and record each missed frame. */
    method RecordSkipped(scheduledStartUs: int, skipped: nat, ghost starts: seq<int>, ghost frame: int)
      requires HistoryOk(starts + [scheduledStartUs], frame) && frameCounter == WireFrame(frame)
      modifies this`frameCounter, this`historyHead, history
      ensures frameCounter == WireFrame(frame + skipped)
      ensures HistoryOk(starts + Boundaries(scheduledStartUs, skipped + 1), frame + skipped)
    {
      var i := 0;
      assert Boundaries(scheduledStartUs, 1) == [scheduledStartUs];
      while i < skipped
        invariant 0 <= i <= skipped && frameCounter == WireFrame(frame + i)
        invariant HistoryOk(starts + Boundaries(scheduledStartUs, i + 1), frame + i)
        decreases skipped - i
      {
        WireNext(frame + i, 1);
        frameCounter := (frameCounter + 1) % WRAP;
        var startUs := scheduledStartUs + (i + 1) * FRAME_US;
        RecordHistory(frameCounter, startUs, starts + Boundaries(scheduledStartUs, i + 1), frame + i);
        BoundariesNext(starts, scheduledStartUs, i + 1);
        i := i + 1;
      }
    }

    /** The counting and recording half of frame_timer_handler. */
    method CountFrames(scheduledStartUs: int, nowUs: int, ghost s: seq<int>, ghost n: int) returns (frameStart: int)
      requires HistoryOk(s, n) && frameCounter == WireFrame(n)
      modifies this`frameCounter, this`historyHead, history
      ensures var skipped := Skipped(scheduledStartUs, nowUs);
        && frameStart == scheduledStartUs + skipped * FRAME_US && frameCounter == WireFrame(n + 1 + skipped)
        && HistoryOk(if skipped >= HISTORY then [frameStart] else s + Boundaries(scheduledStartUs, skipped + 1),
                     n + 1 + skipped)
    {
      WireNext(n, 1);
      frameCounter := (frameCounter + 1) % WRAP;
      frameStart := scheduledStartUs;
      RecordHistory(frameCounter, frameStart, s, n);
      assert Boundaries(scheduledStartUs, 1) == [scheduledStartUs];
      if scheduledStartUs + FRAME_US <= nowUs {
        var skipped: nat := (nowUs - scheduledStartUs) / FRAME_US;
        frameStart := frameStart + skipped * FRAME_US;
        if skipped >= HISTORY {
          WireNext(n + 1, skipped);
          InvalidateHistory(n + skipped);
          frameCounter := (frameCounter + skipped) % WRAP;
          RecordHistory(frameCounter, frameStart, [], n + skipped);
          assert [] + [frameStart] == [frameStart];
        } else {
          RecordSkipped(scheduledStartUs, skipped, s, n + 1);
        }
      }
    }

    /** The correction half of frame_timer_handler. */
    method Correct(frameStart: int, nowUs: int, ghost t: Timing, ghost t': Timing) returns (nextDeadline: int)
      requires RateIs(t) && pendingCorrectionUs == t.pending
      requires t' == Tick(t, nowUs) && frameStart == t'.frameStart
      modifies this`pendingCorrectionUs, this`rateResidual
      ensures nextDeadline == t'.next && pendingCorrectionUs == t'.pending && RateIs(t')
    {
      var rateCorrection := rateWholeUs;
      rateResidual := rateResidual + rateFraction;
      if rateResidual >= MILLION {
        rateCorrection := rateCorrection + 1;
        rateResidual := rateResidual - MILLION;
      } else if rateResidual <= -MILLION {
        rateCorrection := rateCorrection - 1;
        rateResidual := rateResidual + MILLION;
      }
      pendingCorrectionUs := ClampPending(pendingCorrectionUs + rateCorrection);
      var applied := 0;
      if pendingCorrectionUs >= QUANTUM_US {
        applied := QUANTUM_US;
      } else if pendingCorrectionUs <= -QUANTUM_US {
        applied := -QUANTUM_US;
      }
      pendingCorrectionUs := pendingCorrectionUs - applied;
      nextDeadline := frameStart + FRAME_US + applied;
      if nextDeadline <= nowUs {
        pendingCorrectionUs := pendingCorrectionUs + applied;
        applied := 0;
        nextDeadline := frameStart + FRAME_US;
      }
    }

    /** The timing half of frame_timer_handler. */
    method TickNow(nowUs: int)
      requires Timed()
      modifies this`frameCounter, this`frameStartUs, this`pendingCorrectionUs, this`rateResidual,
        this`nextFrameDeadlineUs, this`historyHead, this`spec, history
      ensures Timed() && spec == Tick(old(spec), nowUs)
    {
      ghost var t, t' := spec, Tick(spec, nowUs);
      TickKeepsLedger(t, nowUs);
      var frameStart := CountFrames(nextFrameDeadlineUs, nowUs, t.starts, t.frame);
      var nextDeadline := Correct(frameStart, nowUs, t, t');
      frameStartUs := frameStart;
      nextFrameDeadlineUs := nextDeadline;
      spec := t';
    }

    /** The windows of the frame and the timers armed for them; a window that is already over is not armed. */
    method ArmWindows(nowUs: int) returns (slotDelay: Option<int>, controlDelay: Option<int>)
      modifies this`slotStartUs, this`slotDeadlineUs, this`controlStartUs, this`controlDeadlineUs
      ensures synchronized && slotIndex >= 0 ==>
                && slotStartUs == SlotStart(frameStartUs, slotIndex)
                && slotDeadlineUs == SlotDeadline(frameStartUs, slotIndex)
      ensures controlStartUs == ControlStart(frameStartUs) && controlDeadlineUs == ControlDeadline(frameStartUs)
      ensures slotDelay == (if synchronized && slotIndex >= 0 && nowUs <= slotDeadlineUs
                            then Some(Max(slotStartUs - nowUs, 0)) else None)
      ensures controlDelay == (if synchronized && nowUs <= controlDeadlineUs
                               then Some(Max(controlStartUs - nowUs, 0)) else None)
    {
      slotDelay, controlDelay := None, None;
      var slot := if synchronized then slotIndex else -1;
      if slot >= 0 {
        slotStartUs := frameStartUs + slot * SLOT_US;
        slotDeadlineUs := slotStartUs + SLOT_US - GUARD_US;
      }
      controlStartUs := frameStartUs + MAX_NODES * SLOT_US;
      controlDeadlineUs := controlStartUs + CONTROL_WINDOW_US - GUARD_US;
      if slot >= 0 && nowUs <= slotDeadlineUs {
        slotDelay := Some(Max(slotStartUs - nowUs, 0));
      }
      if synchronized && nowUs <= controlDeadlineUs {
        controlDelay := Some(Max(controlStartUs - nowUs, 0));
      }
    }

    /** frame_timer_handler: a stopped or quiesced clock ignores it, any other re-arms its frame timer ahead. */
    method FrameTimerHandler(nowUs: int)
      returns (frameDelay: Option<int>, slotDelay: Option<int>, controlDelay: Option<int>)
      requires Valid()
      modifies this, history
      ensures Valid()
      ensures spec == if old(running && !timerQuiesced) then Tick(old(spec), nowUs) else old(spec)
      ensures running == old(running) && timerQuiesced == old(timerQuiesced) && synchronized == old(synchronized)
      ensures slotIndex == old(slotIndex)
      ensures !old(running && !timerQuiesced) ==> frameDelay == slotDelay == controlDelay == None && unchanged(this)
      ensures old(running && !timerQuiesced) ==>
                && frameDelay == Some(spec.next - nowUs) && spec.next > nowUs
                && controlStartUs == ControlStart(spec.frameStart)
                && controlDeadlineUs == ControlDeadline(spec.frameStart)
                && controlDelay == (if synchronized && nowUs <= controlDeadlineUs
                                    then Some(Max(controlStartUs - nowUs, 0)) else None)
      ensures old(running && !timerQuiesced) && synchronized && slotIndex >= 0 ==>
                && slotStartUs == SlotStart(spec.frameStart, slotIndex)
                && slotDeadlineUs == SlotDeadline(spec.frameStart, slotIndex)
      ensures old(running && !timerQuiesced) ==>
                slotDelay == (if synchronized && slotIndex >= 0 && nowUs <= slotDeadlineUs
                              then Some(Max(slotStartUs - nowUs, 0)) else None)
    {
      if !running || timerQuiesced {
        return None, None, None;
      }
      TickKeepsLedger(spec, nowUs);
      TickNow(nowUs);
      slotDelay, controlDelay := ArmWindows(nowUs);
      frameDelay := Some(nextFrameDeadlineUs - nowUs);
    }

    /** tdma_tune_timing. */
    method TuneTiming(offsetUs: int)
      requires Valid()
      modifies this
      ensures Valid() && spec == if old(running) then Tuned(old(spec), offsetUs) else old(spec)
      ensures running == old(running) && timerQuiesced == old(timerQuiesced) && synchronized == old(synchronized)
    {
      if !running {
        return;
      }
      pendingCorrectionUs := ClampPending(pendingCorrectionUs + offsetUs);
      spec := Tuned(spec, offsetUs);
    }

    /** The first half of acquire_sync: quiesce the timers under a new generation. */
    method AcquireBegin() returns (started: bool, ticket: nat)
      requires Valid()
      modifies this`timerQuiesced, this`synchronized, this`generation
      ensures Valid() && started == running && ticket == generation
      ensures started ==> timerQuiesced && !synchronized && generation == old(generation) + 1
      ensures !started ==> unchanged(this)
    {
      if !running {
        return false, generation;
      }
      timerQuiesced := true;
      synchronized := false;
      generation := generation + 1;
      return true, generation;
    }

    /** The second half of acquire_sync: unless stopped or overtaken meanwhile, adopt the SYNC's epoch. */
    method AcquireCommit(ticket: nat, counter: nat, driftPpm: int, startUs: int, now1: int, now2: int)
      returns (done: bool)
      requires Valid() && counter < WRAP
      modifies this, history
      ensures Valid() && done == (old(running) && old(generation) == ticket)
      ensures done ==> spec == Acquired(old(spec), counter, driftPpm, startUs, now1, now2)
      ensures done ==> synchronized && !timerQuiesced && running
      ensures !done ==> unchanged(this) && unchanged(history)
    {
      if !running || generation != ticket {
        return false;
      }
      ghost var target := Acquired(spec, counter, driftPpm, startUs, now1, now2);
      AcquireAdoptsEpoch(spec, counter, driftPpm, startUs, now1, now2);
      var (f1, s1, n1) := CaughtUp(counter, startUs, startUs + FRAME_US, now1);
      var (f2, s2, n2) := CaughtUp(f1, s1, n1, now2);
      frameCounter := f2 % WRAP;
      frameStartUs := s2;
      RestartHistory(frameCounter, s2, f2);
      nextFrameDeadlineUs := n2;
      pendingCorrectionUs := 0;
      SetRateCorrection(driftPpm);
      rateResidual := 0;
      synchronized := true;
      timerQuiesced := false;
      spec := target;
      return true;
    }

    /** tdma_sync without another context running between the two halves of an acquisition. */
    method Sync(counter: nat, driftPpm: int, startUs: int, now1: int, now2: int)
      requires Valid() && counter < WRAP
      modifies this, history
      ensures Valid()
      ensures spec == if old(running)
                      then Synced(old(spec), old(synchronized), counter, driftPpm, startUs, now1, now2)
                      else old(spec)
      ensures running == old(running)
      ensures running ==> synchronized
    {
      if !running {
        return;
      }
      ghost var verdict := Judge(spec, synchronized, counter, startUs);
      SyncKeepsLedger(spec, synchronized, counter, driftPpm, startUs, now1, now2);
      var acquire := !synchronized;
      var phaseErrorUs := 0;
      if synchronized {
        var frameDiff := FrameDiff(counter, frameCounter);
        WireDiff(counter, spec.frame);
        if frameDiff > REACQUIRE_FRAMES || frameDiff < -REACQUIRE_FRAMES {
          acquire := true;
        } else {
          var localStart := LookupHistory(counter);
          if localStart.None? {
            return;
          }
          phaseErrorUs := ClampPending(startUs - localStart.value);
          acquire := phaseErrorUs > REACQUIRE_PHASE_US || phaseErrorUs < -REACQUIRE_PHASE_US;
        }
      }
      if acquire {
        var started, ticket := AcquireBegin();
        var done := AcquireCommit(ticket, counter, driftPpm, startUs, now1, now2);
        return;
      }
      pendingCorrectionUs := phaseErrorUs;
      SetRateCorrection(driftPpm);
      spec := spec.(pending := phaseErrorUs, drift := driftPpm);
    }

    /** tdma_stop. */
    method Stop()
      requires Valid()
      modifies this`running, this`synchronized, this`timerQuiesced, this`generation
      ensures Valid() && !running && spec == old(spec)
      ensures old(running) ==> timerQuiesced && generation == old(generation) + 1
    {
      if !running {
        return;
      }
      running, synchronized, timerQuiesced := false, false, true;
      generation := generation + 1;
    }
  }

  lemma WireDiff(frameCounter: nat, frame: int)
    ensures FrameDiff(frameCounter, WireFrame(frame)) == FrameDiff(frameCounter, frame)
  {
  }
}
