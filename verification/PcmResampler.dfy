/**
  The PCM resampler as the firmware runs it: a 2880-sample ring, read and write indices, a
  depth, a Q32 phase below one sample and a PI controller. Every method is proved to act on
  the unbounded stream of module ResamplerSpec.
  */
module PcmResampler {
  import opened Common
  import opened ResamplerSpec

  // ------------------------------------------------------------------ ring

  function Slot(k: nat): (i: nat)
    ensures i < RING
  {
    k % RING
  }

  /** How many writes ahead of index w slot i comes next. */
  function Gap(w: nat, i: nat): int {
    if i >= w then i - w else i + RING - w
  }

  lemma SlotPlus(n: nat, k: nat)
    ensures (Slot(n) + k) % RING == Slot(n + k) && Slot(k + RING) == Slot(k)
  {
  }

  ghost predicate RingHolds<T>(ring: seq<T>, stream: seq<T>, consumed: nat) {
    && |ring| == RING
    && forall k :: consumed <= k < |stream| ==> ring[Slot(k)] == stream[k]
  }

  /** Appending to the stream and copying the same values behind the write index agree. */
  lemma AppendHolds<T>(before: seq<T>, after: seq<T>, stream: seq<T>, consumed: nat, more: seq<T>)
    requires RingHolds(before, stream, consumed) && |after| == RING
    requires consumed <= |stream| && |stream| - consumed + |more| <= RING
    requires forall i :: 0 <= i < RING ==>
      after[i] == var g := Gap(Slot(|stream|), i); if g < |more| then more[g] else before[i]
    ensures RingHolds(after, stream + more, consumed)
  {
  }

  // ------------------------------------------------------------- resampler

  class AudioPcmResampler {
    const ring: array<Sample>
    const activity: array<bool>
    var readIndex: nat
    var writeIndex: nat
    var depth: nat
    var phaseQ32: nat
    var filteredDepthQ8: int
    var integratorQ16: int
    var correctionPpm: int
    var lastOutput: Sample
    var lastActivity: bool
    var started: bool
    var restartFadePending: bool

    /** The stream of ResamplerSpec that these fields stand for. */
    ghost var spec: Stream

    ghost predicate RingIs(s: Stream)
      reads this`readIndex, this`writeIndex, this`depth, ring, activity
    {
      && ring.Length == RING && activity.Length == RING
      && depth == s.Depth() && readIndex == Slot(s.Consumed()) && writeIndex == Slot(|s.samples|)
      && RingHolds(ring[..], s.samples, s.Consumed())
      && RingHolds(activity[..], s.active, s.Consumed())
    }

    ghost predicate StateIs(s: Stream)
      reads this`phaseQ32, this`filteredDepthQ8, this`integratorQ16, this`correctionPpm
      reads this`lastOutput, this`lastActivity, this`started, this`restartFadePending
    {
      && phaseQ32 == s.Phase()
      && Controller(filteredDepthQ8, integratorQ16, correctionPpm) == s.controller
      && lastOutput == s.lastOutput && lastActivity == s.lastActivity
      && started == s.started && restartFadePending == s.fadePending
    }

    ghost predicate Valid()
      reads this, ring, activity
    {
      Inv(spec) && RingIs(spec) && StateIs(spec)
    }

    /** audio_pcm_resampler_reset on fresh memory. */
    constructor ()
      ensures Valid() && spec == FRESH && fresh(ring) && fresh(activity)
    {
      ring := new Sample[RING](_ => 0);
      activity := new bool[RING](_ => false);
      readIndex, writeIndex, depth, phaseQ32 := 0, 0, 0, 0;
      filteredDepthQ8, integratorQ16, correctionPpm := TARGET * 256, 0, 0;
      lastOutput, lastActivity, started, restartFadePending := 0, false, false, false;
      spec := FRESH;
    }

    /** The two memcpy and memset calls of a push that may wrap. */
    method CopyIn(samples: seq<Sample>, active: bool)
      requires ring.Length == RING && activity.Length == RING && writeIndex < RING && |samples| <= RING
      modifies ring, activity
      ensures forall i :: 0 <= i < RING ==>
        ring[i] == var g := Gap(writeIndex, i); if g < |samples| then samples[g] else old(ring[i])
      ensures forall i :: 0 <= i < RING ==>
        activity[i] == if Gap(writeIndex, i) < |samples| then active else old(activity[i])
    {
      var firstCount := Min(|samples|, RING - writeIndex);
      var secondCount := |samples| - firstCount;
      forall j | 0 <= j < firstCount {
        ring[writeIndex + j] := samples[j];
      }
      forall j | 0 <= j < firstCount {
        activity[writeIndex + j] := active;
      }
      forall j | 0 <= j < secondCount {
        ring[j] := samples[firstCount + j];
      }
      forall j | 0 <= j < secondCount {
        activity[j] := active;
      }
    }

    /** The samples go in behind the newest; s and t are the stream before and after. */
    method AppendSamples(samples: seq<Sample>, active: bool, ghost s: Stream, ghost t: Stream)
      requires Inv(s) && RingIs(s) && |samples| <= RING - depth && t == Pushed(s, samples, active)
      modifies this`writeIndex, this`depth, ring, activity
      ensures RingIs(t) && depth == old(depth) + |samples|
    {
      ghost var flags := seq(|samples|, _ => active);
      CopyIn(samples, active);
      AppendHolds(old(ring[..]), ring[..], s.samples, s.Consumed(), samples);
      AppendHolds(old(activity[..]), activity[..], s.active, s.Consumed(), flags);
      SlotPlus(|s.samples|, |samples|);
      writeIndex := (writeIndex + |samples|) % RING;
      depth := depth + |samples|;
    }

    /** audio_pcm_resampler_push. */
    method Push(samples: seq<Sample>, active: bool) returns (result: Telemetry)
      requires Valid()
      modifies this, ring, activity
      ensures Valid() && spec == Pushed(old(spec), samples, active)
      ensures result.rejectedPush == (|samples| > RING - old(depth))
      ensures result.rejectedPush ==> unchanged(this) && unchanged(ring) && unchanged(activity)
      ensures result.depthBefore == old(depth) && result.depthAfter == depth && result.started == started
    {
      if |samples| > RING - depth {
        return Telemetry(started, false, true, depth, depth, 0, correctionPpm, false, false);
      }
      ghost var t := Pushed(spec, samples, active);
      var before := depth;
      AppendSamples(samples, active, spec, t);
      spec := t;
      result := Telemetry(started, false, false, before, depth, 0, correctionPpm, false, false);
    }

    /** update_controller. */
    method UpdateController(measured: nat, recoveryActive: bool, ghost c: Controller)
      requires c == Controller(filteredDepthQ8, integratorQ16, correctionPpm)
      modifies this`filteredDepthQ8, this`integratorQ16, this`correctionPpm
      ensures Controller(filteredDepthQ8, integratorQ16, correctionPpm) == Updated(c, measured, recoveryActive)
    {
      var positiveLimitPpm := if recoveryActive then MAX_RECOVERY_PPM else MAX_CORRECTION_PPM;
      var positiveLimitQ16 := positiveLimitPpm * Q16;
      var negativeLimitQ16 := -MAX_CORRECTION_PPM * Q16;
      filteredDepthQ8 := filteredDepthQ8 + TruncDiv(measured * 256 - filteredDepthQ8, 8);
      var errorQ8 := filteredDepthQ8 - TARGET * 256;
      assert filteredDepthQ8 == Filtered(c.filteredQ8, measured) && errorQ8 == Error(filteredDepthQ8);
      var proportionalQ16 := errorQ8 * 20 * 256;
      var candidateIntegrator := ClampCorrection(integratorQ16 + errorQ8 * 4);
      var candidateOutput := proportionalQ16 + candidateIntegrator;
      if !((candidateOutput > positiveLimitQ16 && errorQ8 > 0) ||
           (candidateOutput < negativeLimitQ16 && errorQ8 < 0)) {
        integratorQ16 := candidateIntegrator;
      }
      assert integratorQ16 == Integrated(c.integratorQ16, errorQ8, Limit(recoveryActive));
      correctionPpm := TruncDiv(ClampOutput(proportionalQ16 + integratorQ16, positiveLimitPpm), Q16);
    }

    /** render_fade_to_zero. */
    method RenderFadeToZero(output: array<Sample>)
      requires output.Length == BLOCK && output != ring
      modifies this`lastOutput, output
      ensures output[..] == FadeToZero(old(lastOutput)) && lastOutput == 0
    {
      ghost var last := lastOutput;
      for i := 0 to BLOCK
        invariant lastOutput == last
        invariant forall j :: 0 <= j < i ==> output[j] == FadeStep(last, j)
      {
        FadeStepFits(lastOutput, i);
        var remaining := BLOCK - 1 - i;
        output[i] := TruncDiv(lastOutput * remaining, BLOCK - 1);
      }
      lastOutput := 0;
      assert output[..] == FadeToZero(last);
    }

    /** One output of the render loop: ring reads at the relative phase are stream reads. */
    method ReadOne(ghost s: Stream, ghost position: nat, phase: nat) returns (sample: Sample, sampleActive: bool)
      requires Inv(s) && RingIs(s)
      requires position / ONE == s.Consumed() + phase / ONE && position % ONE == phase % ONE
      requires position / ONE + 1 < |s.samples|
      ensures sample == At(s.samples, position) && sampleActive == ActiveAt(s.active, position)
    {
      var offset := phase / ONE;
      var fraction := phase % ONE;
      var firstIndex := (readIndex + offset) % RING;
      var secondIndex := (readIndex + offset + 1) % RING;
      SlotPlus(s.Consumed(), offset);
      SlotPlus(s.Consumed(), offset + 1);
      assert ring[..][Slot(position / ONE)] == s.samples[position / ONE];
      assert ring[..][Slot(position / ONE + 1)] == s.samples[position / ONE + 1];
      assert activity[..][Slot(position / ONE)] == s.active[position / ONE];
      assert activity[..][Slot(position / ONE + 1)] == s.active[position / ONE + 1];
      InterpolateBetween(ring[firstIndex], ring[secondIndex], fraction);
      sample := Interpolate(ring[firstIndex], ring[secondIndex], fraction);
      sampleActive := activity[firstIndex] || (fraction != 0 && activity[secondIndex]);
    }

    /** The body of the render loop. */
    method RenderOne(i: nat, stepQ32: nat, ghost s: Stream) returns (sample: Sample, sampleActive: bool)
      requires Inv(s) && RingIs(s) && restartFadePending == s.fadePending
      requires Covers(|s.samples|, s.position, stepQ32) && i < BLOCK
      requires phaseQ32 == Reading(s.Phase(), stepQ32, i)
      modifies this`phaseQ32
      ensures sample == OutputAt(s.samples, s.position, stepQ32, s.fadePending, i)
      ensures sampleActive == AudibleAt(s.active, s.position, stepQ32, i)
      ensures phaseQ32 == Reading(s.Phase(), stepQ32, i + 1)
    {
      ReadingCovered(|s.samples|, s.position, stepQ32, i);
      ReadingSplit(s.position, stepQ32, i);
      ReadingNext(s.Phase(), stepQ32, i);
      sample, sampleActive := ReadOne(s, Reading(s.position, stepQ32, i), phaseQ32);
      if restartFadePending && i < FADE {
        FadeFits(i, sample);
        sample := TruncDiv(sample * (i + 1), FADE);
      }
      phaseQ32 := phaseQ32 + stepQ32;
    }

    /** The render loop: 320 outputs, the phase left running past whole samples. */
    method RenderBlock(output: array<Sample>, stepQ32: nat, ghost s: Stream)
      returns (audible: bool, lastActive: bool)
      requires Inv(s) && RingIs(s) && phaseQ32 == s.Phase() && restartFadePending == s.fadePending
      requires Covers(|s.samples|, s.position, stepQ32)
      requires output.Length == BLOCK && output != ring
      modifies this`phaseQ32, output
      ensures output[..] == BlockOf(s.samples, s.position, stepQ32, s.fadePending)
      ensures phaseQ32 == Reading(s.Phase(), stepQ32, BLOCK)
      ensures audible == Audible(s.active, s.position, stepQ32, BLOCK)
      ensures lastActive == AudibleAt(s.active, s.position, stepQ32, BLOCK - 1)
    {
      audible, lastActive := false, false;
      var i := 0;
      while i < BLOCK
        invariant 0 <= i <= BLOCK && phaseQ32 == Reading(s.Phase(), stepQ32, i)
        invariant BlockBegins(output[..], s, stepQ32, i)
        invariant audible == Audible(s.active, s.position, stepQ32, i)
        invariant i > 0 ==> lastActive == AudibleAt(s.active, s.position, stepQ32, i - 1)
        decreases BLOCK - i
      {
        var sample, sampleActive := RenderOne(i, stepQ32, s);
        BlockGoesOn(output[..], s, stepQ32, i);
        output[i] := sample;
        audible := audible || sampleActive;
        lastActive := sampleActive;
        i := i + 1;
      }
      assert output[..] == BlockOf(s.samples, s.position, stepQ32, s.fadePending);
    }

    /** Before playout starts a render is silence. */
    method RenderSilence(output: array<Sample>)
      requires output.Length == BLOCK
      modifies output
      ensures output[..] == seq(BLOCK, _ => 0)
    {
      for i := 0 to BLOCK
        invariant forall j :: 0 <= j < i ==> output[j] == 0
      {
        output[i] := 0;
      }
    }

    /** The underrun branch: fade out, restart the controller, drop the sub-sample phase. */
    method RenderUnderrun(output: array<Sample>, ghost s: Stream)
      requires RingIs(s) && lastOutput == s.lastOutput && Inv(Stopped(s))
      requires output.Length == BLOCK && output != ring
      modifies this`phaseQ32, this`filteredDepthQ8, this`integratorQ16, this`correctionPpm, this`lastOutput,
        this`lastActivity, this`started, this`restartFadePending, this`spec, output
      ensures output[..] == FadeToZero(s.lastOutput)
      ensures Valid() && spec == Stopped(s)
    {
      RenderFadeToZero(output);
      WholePosition(s.Consumed());
      started := false;
      restartFadePending := true;
      phaseQ32 := 0;
      integratorQ16 := 0;
      correctionPpm := 0;
      filteredDepthQ8 := TARGET * 256;
      lastActivity := false;
      spec := Stopped(s);
    }

    /** The end of a successful render: whole samples leave the phase and the ring. */
    method Consume(consumed: nat, stepQ32: nat, ghost s: Stream, ghost t: Stream)
      requires Inv(s) && RingIs(s) && phaseQ32 == Reading(s.Phase(), stepQ32, BLOCK)
      requires t.samples == s.samples && t.active == s.active && t.position == Reading(s.position, stepQ32, BLOCK)
      requires consumed == Reading(s.Phase(), stepQ32, BLOCK) / ONE && consumed <= s.Depth()
      modifies this`readIndex, this`depth, this`phaseQ32
      ensures RingIs(t) && phaseQ32 == t.Phase() && depth == old(depth) - consumed
    {
      ReadingSplit(s.position, stepQ32, BLOCK);
      SlotPlus(s.Consumed(), consumed);
      readIndex := (readIndex + consumed) % RING;
      depth := depth - consumed;
      phaseQ32 := phaseQ32 - consumed * ONE;
    }

    /** audio_pcm_resampler_render. */
    method Render(output: array<Sample>, upstreamSamples: nat) returns (result: Telemetry)
      requires Valid() && depth + upstreamSamples <= MAX_MEASURED
      requires output.Length == BLOCK && output != ring
      modifies this, output
      ensures Valid()
      ensures (spec, output[..]) == Rendered(old(spec), upstreamSamples)
      ensures result == RenderReport(old(spec), upstreamSamples)
    {
      var recoveryActive := upstreamSamples > 0;
      var depthBefore := depth;
      if !started {
        if depth < START {
          RenderSilence(output);
          return Telemetry(false, false, false, depth, depth, 0, correctionPpm, false, recoveryActive);
        }
        started := true;
      }
      RenderKeepsInv(spec, upstreamSamples);
      result := RenderRunning(output, depthBefore, upstreamSamples);
    }

    /** The fixed-point plan of a render: its step, and the samples it will need and consume. */
    method Plan(ghost s: Stream, ghost c: Controller) returns (stepQ32: nat, required: nat, consumed: nat)
      requires Inv(s) && phaseQ32 == s.Phase() && correctionPpm == c.correctionPpm && ControllerOk(c)
      ensures stepQ32 == StepOf(c)
      ensures required <= s.Depth() <==> Covers(|s.samples|, s.position, stepQ32)
      ensures consumed == Reading(s.Phase(), stepQ32, BLOCK) / ONE
    {
      StepBounds(c);
      var stepAdjustmentQ32 := TruncDiv(correctionPpm * ONE, 1000000);
      stepQ32 := ONE + stepAdjustmentQ32;
      var lastPhase := phaseQ32 + stepQ32 * (BLOCK - 1);
      var finalPhase := lastPhase + stepQ32;
      required := lastPhase / ONE + 2;
      consumed := finalPhase / ONE;
      RequiredCovers(s, stepQ32);
      ReadingNext(s.Phase(), stepQ32, BLOCK - 1);
    }

    /** update_controller as render calls it. */
    method Control(upstreamSamples: nat, ghost s: Stream)
      requires Inv(s) && depth == s.Depth() && depth + upstreamSamples <= MAX_MEASURED
      requires Controller(filteredDepthQ8, integratorQ16, correctionPpm) == s.controller
      modifies this`filteredDepthQ8, this`integratorQ16, this`correctionPpm
      ensures Controller(filteredDepthQ8, integratorQ16, correctionPpm) == NextController(s, upstreamSamples)
      ensures ControllerOk(NextController(s, upstreamSamples))
    {
      var measured := depth + upstreamSamples;
      ghost var c := s.controller;
      assert NextController(s, upstreamSamples) == Updated(c, measured, upstreamSamples > 0);
      UpdatedStaysBounded(c, measured, upstreamSamples > 0);
      UpdateController(measured, upstreamSamples > 0, c);
    }

    /** A render of a started source. */
    method RenderRunning(output: array<Sample>, depthBefore: nat, upstreamSamples: nat) returns (result: Telemetry)
      requires Inv(spec) && RingIs(spec) && StateIs(spec.(started := true)) && Running(spec)
      requires depthBefore == depth && depth + upstreamSamples <= MAX_MEASURED
      requires output.Length == BLOCK && output != ring
      modifies this, output
      ensures Valid()
      ensures (spec, output[..]) == Rendered(old(spec), upstreamSamples)
      ensures result == RenderReport(old(spec), upstreamSamples)
    {
      ghost var s, c := spec, NextController(spec, upstreamSamples);
      RenderKeepsInv(s, upstreamSamples);
      Control(upstreamSamples, s);
      var stepQ32, required, consumed := Plan(s, c);
      if required > depth {
        var audible := lastActivity;
        RenderUnderrun(output, s);
        return Telemetry(false, true, false, depthBefore, depth, 0, 0, audible, upstreamSamples > 0);
      }
      result := RenderCovered(output, stepQ32, consumed, depthBefore, upstreamSamples, s, c);
    }

    /** Its branch without an underrun. */
    method RenderCovered(output: array<Sample>, stepQ32: nat, consumed: nat, depthBefore: nat, upstreamSamples: nat,
                         ghost s: Stream, ghost c: Controller)
      returns (result: Telemetry)
      requires Inv(s) && RingIs(s) && phaseQ32 == s.Phase() && restartFadePending == s.fadePending && started
      requires c == Controller(filteredDepthQ8, integratorQ16, correctionPpm) && stepQ32 == StepOf(c)
      requires c == NextController(s, upstreamSamples) && Running(s) && !Underruns(s, upstreamSamples)
      requires depthBefore == depth && depth + upstreamSamples <= MAX_MEASURED
      requires consumed == Reading(s.Phase(), stepQ32, BLOCK) / ONE && output.Length == BLOCK && output != ring
      modifies this, output
      ensures Valid()
      ensures (spec, output[..]) == Rendered(s, upstreamSamples)
      ensures result == RenderReport(s, upstreamSamples)
    {
      RenderKeepsInv(s, upstreamSamples);
      RenderConsumes(s, upstreamSamples);
      PlayedConsumes(s, c);
      var audible := RenderPlaying(output, stepQ32, consumed, s, c);
      result := Telemetry(true, false, false, depthBefore, depth, consumed, correctionPpm, audible,
                          upstreamSamples > 0);
    }

    /** The output loop and the samples it uses up. */
    method RenderAndConsume(output: array<Sample>, stepQ32: nat, consumed: nat, ghost s: Stream, ghost t: Stream)
      returns (audible: bool, lastActive: bool)
      requires Inv(s) && RingIs(s) && phaseQ32 == s.Phase() && restartFadePending == s.fadePending
      requires Covers(|s.samples|, s.position, stepQ32) && output.Length == BLOCK && output != ring
      requires t.samples == s.samples && t.active == s.active && t.position == Reading(s.position, stepQ32, BLOCK)
      requires consumed == Reading(s.Phase(), stepQ32, BLOCK) / ONE && consumed <= s.Depth()
      modifies this`phaseQ32, this`readIndex, this`depth, output
      ensures RingIs(t) && phaseQ32 == t.Phase() && depth == old(depth) - consumed
      ensures output[..] == BlockOf(s.samples, s.position, stepQ32, s.fadePending)
      ensures audible == Audible(s.active, s.position, stepQ32, BLOCK)
      ensures lastActive == AudibleAt(s.active, s.position, stepQ32, BLOCK - 1)
    {
      audible, lastActive := RenderBlock(output, stepQ32, s);
      Consume(consumed, stepQ32, s, t);
    }

    /** A render that has all the samples it needs. */
    method RenderPlaying(output: array<Sample>, stepQ32: nat, consumed: nat, ghost s: Stream, ghost c: Controller)
      returns (audible: bool)
      requires Inv(s) && RingIs(s) && phaseQ32 == s.Phase() && restartFadePending == s.fadePending && started
      requires c == Controller(filteredDepthQ8, integratorQ16, correctionPpm) && stepQ32 == StepOf(c)
      requires Covers(|s.samples|, s.position, stepQ32)
      requires consumed == Reading(s.Phase(), stepQ32, BLOCK) / ONE && consumed <= s.Depth()
      requires Inv(Played(s, c)) && output.Length == BLOCK && output != ring
      modifies this`phaseQ32, this`restartFadePending, this`readIndex, this`depth, this`lastOutput,
        this`lastActivity, this`spec, output
      ensures Valid() && spec == Played(s, c) && depth == old(depth) - consumed && correctionPpm == c.correctionPpm
      ensures output[..] == BlockOf(s.samples, s.position, stepQ32, s.fadePending)
      ensures audible == Audible(s.active, s.position, stepQ32, BLOCK)
    {
      var lastActive: bool;
      ghost var t := Played(s, c);
      audible, lastActive := RenderAndConsume(output, stepQ32, consumed, s, t);
      restartFadePending := false;
      lastOutput := output[..][BLOCK - 1];
      lastActivity := lastActive;
      spec := t;
    }
  }

  /** The first n outputs are those of the block. */
  ghost predicate BlockBegins(output: seq<Sample>, s: Stream, step: nat, n: nat)
    requires Covers(|s.samples|, s.position, step)
  {
    && |output| == BLOCK && n <= BLOCK
    && forall j :: 0 <= j < n ==> output[j] == OutputAt(s.samples, s.position, step, s.fadePending, j)
  }

  lemma BlockGoesOn(output: seq<Sample>, s: Stream, step: nat, n: nat)
    requires Covers(|s.samples|, s.position, step) && n < BLOCK && BlockBegins(output, s, step, n)
    ensures BlockBegins(output[n := OutputAt(s.samples, s.position, step, s.fadePending, n)], s, step, n + 1)
  {
  }

  lemma PlayedConsumes(s: Stream, c: Controller)
    requires |s.samples| == |s.active| && StepOf(c) >= 0 && Covers(|s.samples|, s.position, StepOf(c))
    ensures Played(s, c).Consumed() - s.Consumed() == Reading(s.Phase(), StepOf(c), BLOCK) / ONE
  {
  }

  /** The firmware's required-samples test is the stream's coverage test. */
  lemma RequiredCovers(s: Stream, step: nat)
    requires s.Depth() >= 0
    ensures (s.Phase() + step * (BLOCK - 1)) / ONE + 2 <= s.Depth() <==> Covers(|s.samples|, s.position, step)
  {
  }
}
