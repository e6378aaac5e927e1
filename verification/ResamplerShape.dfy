/**
  What one render does, in numbers: the lines it draws between samples and around gaps, and how closely the controller
  follows the depth. Nothing here is stated through the functions that compute it.
  */
module ResamplerShape {
  import opened Common
  import opened ResamplerSpec

  // ---------------------------------------------------------- interpolation

  lemma DivNear(n: nat, b: int)
    requires b > 0
    ensures 0 <= b * (n / b) <= n < b * (n / b) + b
  {
    assert n == b * (n / b) + n % b;
  }

  lemma TimesMinus(b: int, q: int)
    ensures b * -q == -(b * q)
  {
  }

  /** A quotient truncated toward zero is less than one off, on the side of zero. */
  lemma TruncDivNear(a: int, b: int)
    requires b > 0
    ensures Abs(b * TruncDiv(a, b) - a) < b
    ensures if a >= 0 then 0 <= b * TruncDiv(a, b) <= a else a <= b * TruncDiv(a, b) <= 0
  {
    if a >= 0 {
      DivNear(a, b);
    } else {
      DivNear(-a, b);
      TimesMinus(b, -a / b);
    }
  }

  /** The interpolated sample lies on the line from the first to the second, rounded toward the first. */
  lemma InterpolateLinear(first: Sample, second: Sample, fraction: nat)
    requires fraction < ONE
    ensures var rise, line := ONE * (Interpolate(first, second, fraction) - first), (second - first) * fraction;
      Abs(rise - line) < ONE && (if line >= 0 then 0 <= rise <= line else line <= rise <= 0)
  {
    TruncDivNear((second - first) * fraction, ONE);
  }

  /** 2^32 times the linear interpolation of a stream at a position, exactly. */
  function Line(samples: seq<Sample>, position: nat): int
    requires position / ONE + 1 < |samples|
  {
    var i, fraction := position / ONE, position % ONE;
    samples[i] * (ONE - fraction) + samples[i + 1] * fraction
  }

  /** An output is less than a unit off that line; while it fades in, less than two off the ramped line. */
  ghost predicate OnLine(samples: seq<Sample>, position: nat, pending: bool, i: nat, out: Sample) {
    && position / ONE + 1 < |samples|
    && (if pending && i < FADE then Abs(FADE * ONE * out - (i + 1) * Line(samples, position)) < 2 * FADE * ONE
        else Abs(ONE * out - Line(samples, position)) < ONE)
  }

  lemma AtOnLine(samples: seq<Sample>, position: nat)
    requires position / ONE + 1 < |samples|
    ensures Abs(ONE * At(samples, position) - Line(samples, position)) < ONE
  {
    var i, fraction := position / ONE, position % ONE;
    var first, second := samples[i], samples[i + 1];
    InterpolateLinear(first, second, fraction);
    assert Line(samples, position) == ONE * first + (second - first) * fraction;
  }

  lemma RampAdds(r: int, g: nat, out: int, line: int)
    requires g <= FADE && Abs(ONE * r - line) < ONE && Abs(FADE * out - g * r) < FADE
    ensures Abs(FADE * ONE * out - g * line) < 2 * FADE * ONE
  {
    var d := ONE * r - line;
    assert g * line == ONE * (g * r) - g * d;
    assert Abs(g * d) <= FADE * (ONE - 1) by {
      if d >= 0 { MulMonotone(g, FADE, d); } else { MulMonotone(g, FADE, -d); assert g * d == -(g * -d); }
    }
    assert FADE * ONE * out - g * line == ONE * (FADE * out - g * r) + g * d;
  }

  lemma OutputOnLine(samples: seq<Sample>, position: nat, step: nat, pending: bool, i: nat)
    requires Covers(|samples|, position, step) && i < BLOCK
    ensures OnLine(samples, position + i * step, pending, i, OutputAt(samples, position, step, pending, i))
  {
    ReadingCovered(|samples|, position, step, i);
    var p := position + i * step;
    assert Reading(position, step, i) == p;
    AtOnLine(samples, p);
    if pending && i < FADE {
      var s := At(samples, p);
      FadeFits(i, s);
      TruncDivNear(s * (i + 1), FADE);
      RampAdds(s, i + 1, OutputAt(samples, position, step, pending, i), Line(samples, p));
    }
  }

  /** An underrun fades out along the line from the last output to zero. */
  lemma FadeToZeroOnLine(last: Sample, i: nat)
    requires i < BLOCK
    ensures Abs((BLOCK - 1) * FadeToZero(last)[i] - last * (BLOCK - 1 - i)) < BLOCK - 1
    ensures FadeToZero(last)[0] == last && FadeToZero(last)[BLOCK - 1] == 0
  {
    TruncDivNear(last * (BLOCK - 1 - i), BLOCK - 1);
    TruncDivNear(last * (BLOCK - 1), BLOCK - 1);
  }

  // -------------------------------------------------------------- controller

  /** What the depth filter still lacks. */
  function Lack(filteredQ8: int, depth: nat): int { depth * 256 - filteredQ8 }

  /** Each update closes an eighth of the gap to the measured depth, up to rounding. */
  lemma FilterClosesGap(c: Controller, depth: nat, recovery: bool)
    ensures var before, after := Lack(c.filteredQ8, depth), Lack(Updated(c, depth, recovery).filteredQ8, depth);
      && Abs(8 * (before - after) - before) < 8
      && Abs(after) == Abs(before) - Abs(before) / 8
  {
    TruncDivNear(Lack(c.filteredQ8, depth), 8);
  }

  function UpdatedBy(c: Controller, depth: nat, recovery: bool, n: nat): Controller
    decreases n
  {
    if n == 0 then c else Updated(UpdatedBy(c, depth, recovery, n - 1), depth, recovery)
  }

  /** After n updates a gap of `start` has come down to this. */
  predicate Settling(c: Controller, depth: nat, start: nat, n: nat) {
    Abs(Lack(c.filteredQ8, depth)) <= Max(7, start - n)
  }

  lemma GapShrinks(c: Controller, depth: nat, recovery: bool, start: nat, n: nat)
    requires n > 0 && Settling(c, depth, start, n - 1)
    ensures Settling(Updated(c, depth, recovery), depth, start, n)
  {
    FilterClosesGap(c, depth, recovery);
  }

  /** So at a steady depth the filter settles within 7/256 of a sample. */
  lemma {:induction false} FilterSettles(c: Controller, depth: nat, recovery: bool, n: nat)
    ensures Settling(UpdatedBy(c, depth, recovery, n), depth, Abs(Lack(c.filteredQ8, depth)), n)
    decreases n
  {
    var start := Abs(Lack(c.filteredQ8, depth));
    if n > 0 {
      var before := UpdatedBy(c, depth, recovery, n - 1);
      assert Settling(before, depth, start, n - 1) by { FilterSettles(c, depth, recovery, n - 1); }
      GapShrinks(before, depth, recovery, start, n);
    }
  }

  /** The depth error the controller acts on, in 1/256 samples above the target. */
  function ErrorOf(c: Controller): int { c.filteredQ8 - 1280 * 256 }

  lemma ClampedPpm(wanted: int, limitPpm: nat)
    ensures var ppm := TruncDiv(ClampOutput(wanted, limitPpm), Q16);
      if wanted > limitPpm * 65536 then ppm == limitPpm
      else if wanted < -1000 * 65536 then ppm == -1000
      else Abs(65536 * ppm - wanted) < 65536
  {
    TruncDivNear(ClampOutput(wanted, limitPpm), Q16);
  }

  /**
    The correction in ppm is 20 for each sample of error plus the integrator, truncated, between -1000 and its upper
    limit: 1000, or 20000 while more audio waits upstream.
    */
  lemma CorrectionTracks(c: Controller, depth: nat, recovery: bool)
    ensures var c' := Updated(c, depth, recovery);
      var wanted, limit := 20 * 256 * ErrorOf(c') + c'.integratorQ16, if recovery then 20000 else 1000;
      if wanted > limit * 65536 then c'.correctionPpm == limit
      else if wanted < -1000 * 65536 then c'.correctionPpm == -1000
      else Abs(65536 * c'.correctionPpm - wanted) < 65536
  {
    var c' := Updated(c, depth, recovery);
    ClampedPpm(20 * 256 * ErrorOf(c') + c'.integratorQ16, Limit(recovery));
  }

  /**
    The integrator moves by four times the error, up to 1000 ppm either way; only while the correction is cut off on
    the side of the error does it stay.
    */
  lemma IntegratorMoves(c: Controller, depth: nat, recovery: bool)
    requires ControllerOk(c)
    ensures var c' := Updated(c, depth, recovery);
      var e, limit := ErrorOf(c'), if recovery then 20000 else 1000;
      var moved := Clamp(c.integratorQ16 + 4 * e, -1000 * 65536, 1000 * 65536);
      var cutOff := (e > 0 && 20 * 256 * e + moved > limit * 65536)
                    || (e < 0 && 20 * 256 * e + moved < -1000 * 65536);
      c'.integratorQ16 == if cutOff then c.integratorQ16 else moved
  {
  }

  /** One ppm of correction is a millionth of a sample for each output. */
  lemma StepTracks(c: Controller)
    ensures Abs(1000000 * (StepOf(c) - ONE) - c.correctionPpm * ONE) < 1000000
  {
    TruncDivNear(c.correctionPpm * ONE, 1000000);
  }

  // ------------------------------------------------------------------ render

  /** A push puts its samples behind the others, all with its flag, or nothing when they do not all fit. */
  lemma PushAppends(s: Stream, samples: seq<Sample>, active: bool)
    requires Inv(s)
    ensures var t := Pushed(s, samples, active);
      if s.Depth() + |samples| > 2880 then t == s
      else
        && t == s.(samples := s.samples + samples, active := t.active) && s.active <= t.active
        && |t.active| == |t.samples| && forall k :: |s.active| <= k < |t.active| ==> t.active[k] == active
  {
  }

  /** Nothing plays before 1280 samples are there: silence goes out and all is kept. */
  lemma SilentBeforeStart(s: Stream, upstream: nat)
    requires Inv(s) && !s.started && s.Depth() < 1280
    ensures Rendered(s, upstream).0 == s && forall i :: 0 <= i < BLOCK ==> Rendered(s, upstream).1[i] == 0
  {
  }

  lemma BlockEnds(length: nat, position: nat, step: nat)
    ensures Covers(length, position, step) <==> (position + 319 * step) / ONE + 1 < length
    ensures Reading(position, step, BLOCK) == position + 320 * step
  {
  }

  lemma StepForward(s: Stream, upstream: nat)
    requires Inv(s) && s.Depth() + upstream <= MAX_MEASURED
    ensures StepOf(NextController(s, upstream)) >= 0
  {
    UpdatedStaysBounded(s.controller, s.Depth() + upstream, upstream > 0);
    StepBounds(NextController(s, upstream));
  }

  /** From then on a render underruns exactly if its last output lacks a neighbour. */
  lemma PlaysOrUnderruns(s: Stream, upstream: nat)
    requires Inv(s) && s.Depth() + upstream <= MAX_MEASURED
    ensures Underruns(s, upstream) <==>
              (s.position + 319 * StepOf(NextController(s, upstream))) / ONE + 1 >= |s.samples|
  {
    StepForward(s, upstream);
    BlockEnds(|s.samples|, s.position, StepOf(NextController(s, upstream)));
  }

  /** A block that plays moves the position by 320 steps and updates the controller. */
  lemma PlayedMoves(s: Stream, upstream: nat)
    requires Inv(s) && Running(s) && !Underruns(s, upstream)
    ensures var c, (t, out) := NextController(s, upstream), Rendered(s, upstream);
      && c == Updated(s.controller, s.Depth() + upstream, upstream > 0)
      && t == Stream(s.samples, s.active, s.position + 320 * StepOf(c), c, out[319],
                     AudibleAt(s.active, s.position, StepOf(c), 319), true, false)
  {
    BlockEnds(|s.samples|, s.position, StepOf(NextController(s, upstream)));
  }

  /** An underrun fades out, drops the fraction of a sample, and starts over with the controller and a fade in. */
  lemma UnderrunRestarts(s: Stream, upstream: nat)
    requires Inv(s) && Running(s) && Underruns(s, upstream)
    ensures var (t, out) := Rendered(s, upstream);
      && t == Stream(s.samples, s.active, s.position / ONE * ONE, Controller(1280 * 256, 0, 0), 0, false, false, true)
      && (forall i :: 0 <= i < BLOCK ==> Abs((BLOCK - 1) * out[i] - s.lastOutput * (BLOCK - 1 - i)) < BLOCK - 1)
  {
    forall i | 0 <= i < BLOCK
      ensures Abs((BLOCK - 1) * FadeToZero(s.lastOutput)[i] - s.lastOutput * (BLOCK - 1 - i)) < BLOCK - 1
    {
      FadeToZeroOnLine(s.lastOutput, i);
    }
  }

  lemma {:induction false} AudibleMeans(active: seq<bool>, position: nat, step: nat, n: nat)
    requires Covers(|active|, position, step) && n <= BLOCK
    ensures Audible(active, position, step, n) <==> exists i :: 0 <= i < n && AudibleAt(active, position, step, i)
  {
    if n > 0 {
      AudibleMeans(active, position, step, n - 1);
    }
  }

  /** Sample k is less than one sample away from output i. */
  predicate Weighs(position: nat, step: nat, i: nat, k: nat) { Abs(k * ONE - (position + i * step)) < ONE }

  /** Output i gives weight to an active sample. */
  ghost predicate Sounds(active: seq<bool>, position: nat, step: nat, i: nat) {
    exists k :: 0 <= k < |active| && active[k] && Weighs(position, step, i, k)
  }

  /** A played block is reported audible exactly if one of its outputs gives weight to an active sample. */
  lemma ReportsAudible(s: Stream, upstream: nat)
    requires Inv(s) && Running(s) && !Underruns(s, upstream)
    ensures RenderReport(s, upstream).audibleActive <==>
              exists i :: 0 <= i < BLOCK && Sounds(s.active, s.position, StepOf(NextController(s, upstream)), i)
  {
    AudibleSounds(s.active, s.position, StepOf(NextController(s, upstream)));
  }

  lemma AudibleSounds(active: seq<bool>, position: nat, step: nat)
    requires Covers(|active|, position, step)
    ensures Audible(active, position, step, BLOCK) <==> exists i :: 0 <= i < BLOCK && Sounds(active, position, step, i)
  {
    AudibleMeans(active, position, step, BLOCK);
    forall i | 0 <= i < BLOCK
      ensures AudibleAt(active, position, step, i) <==> Sounds(active, position, step, i)
    {
      WeighsActive(active, position, step, i);
    }
  }

  lemma WeighsActive(active: seq<bool>, position: nat, step: nat, i: nat)
    requires Covers(|active|, position, step) && i < BLOCK
    ensures AudibleAt(active, position, step, i) <==> Sounds(active, position, step, i)
  {
    ReadingCovered(|active|, position, step, i);
    var p := Reading(position, step, i);
    var first := p / ONE;
    assert p == position + i * step && p == first * ONE + p % ONE;
    assert Weighs(position, step, i, first);
    assert p % ONE != 0 ==> Weighs(position, step, i, first + 1);
    if Sounds(active, position, step, i) {
      var k :| 0 <= k < |active| && active[k] && Weighs(position, step, i, k);
      Neighbour(k, first, p % ONE);
    }
  }

  lemma Neighbour(k: nat, first: nat, fraction: nat)
    requires fraction < ONE && Abs(k * ONE - (first * ONE + fraction)) < ONE
    ensures k == first || (k == first + 1 && fraction != 0)
  {
  }

  /** The rest of a report agrees with the change of state it reports. */
  lemma ReportsChange(s: Stream, upstream: nat)
    requires Inv(s) && s.Depth() + upstream <= MAX_MEASURED
    ensures var r, t := RenderReport(s, upstream), Rendered(s, upstream).0;
      && r.depthBefore == s.Depth() && r.depthAfter == t.Depth() && r.consumedCount == t.Consumed() - s.Consumed()
      && r.started == t.started && r.correctionPpm == t.controller.correctionPpm && !r.rejectedPush
      && (r.underrun <==> (s.started || s.Depth() >= 1280) && !t.started)
      && (r.recoveryActive <==> upstream > 0) && (r.underrun ==> r.audibleActive == s.lastActivity)
      && (!s.started && s.Depth() < 1280 ==> !r.audibleActive)
  {
    if Running(s) && Underruns(s, upstream) {
      WholePosition(s.Consumed());
    }
  }
}
