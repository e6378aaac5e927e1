/**
  The PCM resampler as a reader of one unbounded sample stream.

  `position` is an absolute Q32 fixed-point position: its integer part counts consumed
  samples, its fraction is the phase. The ring, its indices and the relative phase appear
  only in module PcmResampler, which is proved to behave as the functions below.
  */
module ResamplerSpec {
  import opened Common

  const ONE := 0x1_0000_0000
  const BLOCK := 320
  const RING := 2880
  const TARGET := 1280
  const START := 1280
  const MAX_CORRECTION_PPM := 1000
  const MAX_RECOVERY_PPM := 20000
  const FADE := 32
  const Q16 := 65536
  /** The largest depth whose Q8 value still fits 32 signed bits. */
  const MAX_MEASURED := 0x7F_FFFF

  type Sample = s: int | -0x8000 <= s < 0x8000

  // ------------------------------------------------------------ controller

  datatype Controller = Controller(filteredQ8: int, integratorQ16: int, correctionPpm: int)

  const IDLE := Controller(TARGET * 256, 0, 0)

  function Limit(recovery: bool): nat {
    if recovery then MAX_RECOVERY_PPM else MAX_CORRECTION_PPM
  }

  /** clamp_correction_q16. */
  function ClampCorrection(value: int): int {
    Clamp(value, -MAX_CORRECTION_PPM * Q16, MAX_CORRECTION_PPM * Q16)
  }

  /** clamp_output_q16. */
  function ClampOutput(value: int, positiveLimitPpm: nat): int {
    Clamp(value, -MAX_CORRECTION_PPM * Q16, positiveLimitPpm * Q16)
  }

  /** The depth filter: one eighth of the way toward the measured depth. */
  function Filtered(filteredQ8: int, depth: nat): int {
    filteredQ8 + TruncDiv(depth * 256 - filteredQ8, 8)
  }

  function Error(filteredQ8: int): int { filteredQ8 - TARGET * 256 }

  function Proportional(error: int): int { error * 20 * 256 }

  /** Anti-windup: the integrator is held while the output saturates in the direction of the error. */
  function Integrated(integratorQ16: int, error: int, limitPpm: nat): int {
    var candidate := ClampCorrection(integratorQ16 + error * 4);
    var output := Proportional(error) + candidate;
    if (output > limitPpm * Q16 && error > 0) || (output < -MAX_CORRECTION_PPM * Q16 && error < 0)
    then integratorQ16 else candidate
  }

  /** update_controller. */
  function Updated(c: Controller, depth: nat, recovery: bool): Controller {
    var filtered := Filtered(c.filteredQ8, depth);
    var error := Error(filtered);
    var integrator := Integrated(c.integratorQ16, error, Limit(recovery));
    Controller(filtered, integrator, TruncDiv(ClampOutput(Proportional(error) + integrator, Limit(recovery)), Q16))
  }

  ghost predicate ControllerOk(c: Controller) {
    && 0 <= c.filteredQ8 <= MAX_MEASURED * 256
    && -MAX_CORRECTION_PPM * Q16 <= c.integratorQ16 <= MAX_CORRECTION_PPM * Q16
    && -MAX_CORRECTION_PPM <= c.correctionPpm <= MAX_RECOVERY_PPM
  }

  /** Fixed-point bounds: no 32-bit field overflows and the correction stays inside its limits. */
  lemma UpdatedStaysBounded(c: Controller, depth: nat, recovery: bool)
    requires ControllerOk(c) && depth <= MAX_MEASURED
    ensures var c' := Updated(c, depth, recovery);
      && ControllerOk(c')
      && c'.correctionPpm <= Limit(recovery)
      && (if depth * 256 >= c.filteredQ8 then c.filteredQ8 <= c'.filteredQ8 <= depth * 256
          else depth * 256 <= c'.filteredQ8 <= c.filteredQ8)
  {
  }

  /** What the controller puts out before it is clamped and scaled to ppm. */
  function Output(c: Controller, depth: nat, recovery: bool): int {
    var error := Error(Filtered(c.filteredQ8, depth));
    Proportional(error) + Integrated(c.integratorQ16, error, Limit(recovery))
  }

  /** The reading is slower than nominal exactly for an output of -1 ppm or less, faster exactly for 1 ppm or more. */
  lemma CorrectionSign(c: Controller, depth: nat, recovery: bool)
    ensures StepOf(Updated(c, depth, recovery)) >= ONE <==> Output(c, depth, recovery) > -Q16
    ensures StepOf(Updated(c, depth, recovery)) <= ONE <==> Output(c, depth, recovery) < Q16
  {
    var ppm := Updated(c, depth, recovery).correctionPpm;
    PpmSign(Output(c, depth, recovery), Limit(recovery));
    StepSign(ppm);
  }

  lemma PpmSign(output: int, limitPpm: nat)
    requires limitPpm > 0
    ensures TruncDiv(ClampOutput(output, limitPpm), Q16) >= 0 <==> output > -Q16
    ensures TruncDiv(ClampOutput(output, limitPpm), Q16) <= 0 <==> output < Q16
  {
  }

  lemma StepSign(ppm: int)
    ensures TruncDiv(ppm * ONE, 1000000) >= 0 <==> ppm >= 0
    ensures TruncDiv(ppm * ONE, 1000000) <= 0 <==> ppm <= 0
  {
  }

  /**
    While the integrator does not lag behind, having the sign of the depth error or none, a store that is too full is
    read no slower than nominal and one too empty no faster.
    */
  lemma CorrectionOpposesError(c: Controller, depth: nat, recovery: bool)
    requires ControllerOk(c) && depth <= MAX_MEASURED
    ensures var c' := Updated(c, depth, recovery);
      && (c'.filteredQ8 >= TARGET * 256 && c.integratorQ16 >= 0 ==> c'.integratorQ16 >= 0 && StepOf(c') >= ONE)
      && (c'.filteredQ8 <= TARGET * 256 && c.integratorQ16 <= 0 ==> c'.integratorQ16 <= 0 && StepOf(c') <= ONE)
  {
  }

  /** What an error of 1/256 sample adds to the output at once: the proportional and the integral gain. */
  const GAIN := 20 * 256 + 4

  /**
    Exactly when a correction works against the error: a store that is not too empty is read slower than nominal, and
    one not too full faster, if and only if the integrator outweighs the error by a whole ppm.
    */
  lemma CorrectionFollowsError(c: Controller, depth: nat, recovery: bool)
    requires ControllerOk(c) && depth <= MAX_MEASURED
    ensures var e, step := Error(Filtered(c.filteredQ8, depth)), StepOf(Updated(c, depth, recovery));
      && (e >= 0 ==> (step < ONE <==> c.integratorQ16 + GAIN * e <= -Q16))
      && (e <= 0 ==> (step > ONE <==> c.integratorQ16 + GAIN * e >= Q16))
  {
    CorrectionSign(c, depth, recovery);
  }

  /** Q32 samples to advance per output sample. */
  function StepOf(c: Controller): int {
    ONE + TruncDiv(c.correctionPpm * ONE, 1000000)
  }

  lemma StepBounds(c: Controller)
    requires ControllerOk(c)
    ensures ONE * 999 <= StepOf(c) * 1000 && StepOf(c) * 100 <= ONE * 102
  {
  }

  // ---------------------------------------------------------- interpolation

  function Interpolate(first: Sample, second: Sample, fraction: nat): int {
    first + TruncDiv((second - first) * fraction, ONE)
  }

  lemma InterpolateBetween(first: Sample, second: Sample, fraction: nat)
    requires fraction < ONE
    ensures Min(first, second) <= Interpolate(first, second, fraction) <= Max(first, second)
    ensures fraction == 0 ==> Interpolate(first, second, fraction) == first
  {
    var d := if second >= first then second - first else first - second;
    Scaled(d, fraction);
    assert second < first ==> (second - first) * fraction == -(d * fraction);
  }

  lemma Scaled(d: nat, fraction: nat)
    requires fraction < ONE
    ensures 0 <= d * fraction && d * fraction / ONE <= d
  {
  }

  lemma MulMonotone(a: nat, b: nat, factor: nat)
    requires a <= b
    ensures 0 <= a * factor <= b * factor
  {
  }

  lemma DivMonotone(a: nat, b: nat)
    requires a <= b
    ensures a / ONE <= b / ONE
  {
  }

  /** The stream at an absolute position. */
  function At(samples: seq<Sample>, position: nat): (s: Sample)
    requires position / ONE + 1 < |samples|
  {
    var i := position / ONE;
    InterpolateBetween(samples[i], samples[i + 1], position % ONE);
    Interpolate(samples[i], samples[i + 1], position % ONE)
  }

  predicate ActiveAt(active: seq<bool>, position: nat)
    requires position / ONE + 1 < |active|
  {
    active[position / ONE] || (position % ONE != 0 && active[position / ONE + 1])
  }

  lemma FadeFits(i: nat, s: Sample)
    requires i < FADE
    ensures -0x8000 <= TruncDiv(s * (i + 1), FADE) < 0x8000
  {
  }

  function Faded(pending: bool, i: nat, s: Sample): (f: Sample) {
    if pending && i < FADE then FadeFits(i, s); TruncDiv(s * (i + 1), FADE) else s
  }

  // ----------------------------------------------------------------- stream

  datatype Stream = Stream(
    samples: seq<Sample>,
    active: seq<bool>,
    position: nat,
    controller: Controller,
    lastOutput: Sample,
    lastActivity: bool,
    started: bool,
    fadePending: bool)
  {
    function Consumed(): nat { position / ONE }

    function Phase(): nat { position % ONE }

    function Depth(): int { |samples| - Consumed() }
  }

  datatype Telemetry = Telemetry(
    started: bool,
    underrun: bool,
    rejectedPush: bool,
    depthBefore: int,
    depthAfter: int,
    consumedCount: int,
    correctionPpm: int,
    audibleActive: bool,
    recoveryActive: bool)

  const FRESH := Stream([], [], 0, IDLE, 0, false, false, false)

  ghost predicate Inv(s: Stream) {
    && |s.samples| == |s.active|
    && 0 <= s.Depth() <= RING
    && ControllerOk(s.controller)
  }

  function Pushed(s: Stream, samples: seq<Sample>, active: bool): Stream {
    if |samples| > RING - s.Depth() then s
    else s.(samples := s.samples + samples, active := s.active + seq(|samples|, _ => active))
  }

  /** The position of output i of a block read from `position` at `step`. */
  function Reading(position: nat, step: nat, i: nat): nat {
    position + i * step
  }

  lemma ReadingNext(position: nat, step: nat, i: nat)
    ensures Reading(position, step, i + 1) == Reading(position, step, i) + step
    ensures Reading(position, step, 0) == position
  {
  }

  lemma ReadingSplit(position: nat, step: nat, i: nat)
    ensures Reading(position, step, i) / ONE == position / ONE + Reading(position % ONE, step, i) / ONE
    ensures Reading(position, step, i) % ONE == Reading(position % ONE, step, i) % ONE
  {
  }

  /** Every output of the block has both neighbours in the stream. */
  predicate Covers(length: nat, position: nat, step: nat) {
    Reading(position, step, BLOCK - 1) / ONE + 1 < length
  }

  lemma ReadingCovered(length: nat, position: nat, step: nat, i: nat)
    requires Covers(length, position, step) && i < BLOCK
    ensures Reading(position, step, i) / ONE + 1 < length
  {
    MulMonotone(i, BLOCK - 1, step);
    DivMonotone(Reading(position, step, i), Reading(position, step, BLOCK - 1));
  }

  /** Output i of a block: the stream at position + i * step, faded in after an underrun. */
  function OutputAt(samples: seq<Sample>, position: nat, step: nat, pending: bool, i: nat): Sample
    requires Covers(|samples|, position, step) && i < BLOCK
  {
    ReadingCovered(|samples|, position, step, i);
    Faded(pending, i, At(samples, Reading(position, step, i)))
  }

  function BlockOf(samples: seq<Sample>, position: nat, step: nat, pending: bool): (out: seq<Sample>)
    requires Covers(|samples|, position, step)
    ensures |out| == BLOCK
  {
    seq(BLOCK, i requires 0 <= i < BLOCK => OutputAt(samples, position, step, pending, i))
  }

  predicate AudibleAt(active: seq<bool>, position: nat, step: nat, i: nat)
    requires Covers(|active|, position, step) && i < BLOCK
  {
    ReadingCovered(|active|, position, step, i);
    ActiveAt(active, Reading(position, step, i))
  }

  /** Some of the first n outputs read an active sample. */
  predicate Audible(active: seq<bool>, position: nat, step: nat, n: nat)
    requires Covers(|active|, position, step) && n <= BLOCK
  {
    n > 0 && (Audible(active, position, step, n - 1) || AudibleAt(active, position, step, n - 1))
  }

  function FadeToZero(last: Sample): (out: seq<Sample>)
    ensures |out| == BLOCK
  {
    seq(BLOCK, i requires 0 <= i < BLOCK => FadeStep(last, i))
  }

  function FadeStep(last: Sample, i: nat): Sample
    requires i < BLOCK
  {
    FadeStepFits(last, i);
    TruncDiv(last * (BLOCK - 1 - i), BLOCK - 1)
  }

  lemma FadeStepFits(last: Sample, i: nat)
    requires i < BLOCK
    ensures -0x8000 <= TruncDiv(last * (BLOCK - 1 - i), BLOCK - 1) < 0x8000
  {
    var n := BLOCK - 1 - i;
    var d: nat := if last >= 0 then last as int else -(last as int);
    MulMonotone(n, BLOCK - 1, d);
    QuotientWithin(n * d, d);
    assert last < 0 ==> last * n == -(n * d);
  }

  lemma QuotientWithin(x: nat, d: nat)
    requires x <= (BLOCK - 1) * d
    ensures x / (BLOCK - 1) <= d
  {
  }

  // ---------------------------------------------------------------- render

  /** Whether this render reads the stream at all: it has started, or can start now. */
  predicate Running(s: Stream) { s.started || s.Depth() >= START }

  function NextController(s: Stream, upstream: nat): Controller
    requires s.Depth() >= 0
  {
    Updated(s.controller, s.Depth() + upstream, upstream > 0)
  }

  /** A running render that finds too few samples. */
  predicate Underruns(s: Stream, upstream: nat)
    requires s.Depth() >= 0
  {
    var step := StepOf(NextController(s, upstream));
    step < 0 || !Covers(|s.samples|, s.position, step)
  }

  /** The stream after a block was read from it under controller c. */
  function Played(s: Stream, c: Controller): Stream
    requires |s.samples| == |s.active| && StepOf(c) >= 0 && Covers(|s.samples|, s.position, StepOf(c))
  {
    var step := StepOf(c);
    s.(started := true, fadePending := false, position := Reading(s.position, step, BLOCK), controller := c,
       lastOutput := OutputAt(s.samples, s.position, step, s.fadePending, BLOCK - 1),
       lastActivity := AudibleAt(s.active, s.position, step, BLOCK - 1))
  }

  /** The stream after an underrun: the sub-sample phase is dropped and the controller restarts. */
  function Stopped(s: Stream): Stream {
    s.(started := false, fadePending := true, position := s.Consumed() * ONE, controller := IDLE,
       lastActivity := false, lastOutput := 0)
  }

  function Rendered(s: Stream, upstream: nat): (r: (Stream, seq<Sample>))
    requires |s.samples| == |s.active| && s.Depth() >= 0
    ensures |r.1| == BLOCK
  {
    if !Running(s) then (s, seq(BLOCK, _ => 0))
    else if Underruns(s, upstream) then (Stopped(s), FadeToZero(s.lastOutput))
    else
      var c := NextController(s, upstream);
      (Played(s, c), BlockOf(s.samples, s.position, StepOf(c), s.fadePending))
  }

  ghost function RenderReport(s: Stream, upstream: nat): Telemetry
    requires |s.samples| == |s.active| && s.Depth() >= 0
  {
    var t := Rendered(s, upstream).0;
    if !Running(s) then
      Telemetry(false, false, false, s.Depth(), s.Depth(), 0, s.controller.correctionPpm, false, upstream > 0)
    else if Underruns(s, upstream) then
      Telemetry(false, true, false, s.Depth(), s.Depth(), 0, 0, s.lastActivity, upstream > 0)
    else
      Telemetry(true, false, false, s.Depth(), t.Depth(), t.Consumed() - s.Consumed(), t.controller.correctionPpm,
                Audible(s.active, s.position, StepOf(t.controller), BLOCK), upstream > 0)
  }

  // ----------------------------------------------------------------- bounds

  lemma WholePosition(n: nat)
    ensures n * ONE / ONE == n && n * ONE % ONE == 0
  {
  }

  /** A successful render consumes 319 to 327 samples and never more than there are. */
  lemma RenderConsumes(s: Stream, upstream: nat)
    requires Inv(s) && s.Depth() + upstream <= MAX_MEASURED
    requires Running(s) && !Underruns(s, upstream)
    ensures var t := Rendered(s, upstream).0;
      && 319 <= t.Consumed() - s.Consumed() <= 327
      && t.Consumed() <= |s.samples|
      && t.Depth() == s.Depth() - (t.Consumed() - s.Consumed())
  {
  }

  /** 328 samples are enough for a block, so a source that starts with 1280 does not underrun on its first one. */
  lemma FirstBlockPlays(s: Stream, upstream: nat)
    requires Inv(s) && s.Depth() + upstream <= MAX_MEASURED
    requires s.Depth() >= 328
    ensures !Underruns(s, upstream)
  {
  }

  lemma RenderKeepsInv(s: Stream, upstream: nat)
    requires Inv(s) && s.Depth() + upstream <= MAX_MEASURED
    ensures Inv(Rendered(s, upstream).0)
    ensures Rendered(s, upstream).0.samples == s.samples
    ensures s.Consumed() <= Rendered(s, upstream).0.Consumed() <= |s.samples|
  {
    if !Running(s) {
    } else if Underruns(s, upstream) {
      WholePosition(s.Consumed());
    } else {
      UpdatedStaysBounded(s.controller, s.Depth() + upstream, upstream > 0);
      RenderConsumes(s, upstream);
    }
  }
}
