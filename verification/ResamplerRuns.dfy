/** Whole runs of the resampler: every block ever rendered reads one unbroken stream. */
module ResamplerRuns {
  import opened Common
  import opened ResamplerSpec
  import opened ResamplerShape

  datatype Op = PushOp(samples: seq<Sample>, active: bool) | RenderOp(upstream: nat)

  /** A successful render: where it began, its step, whether it faded in, and what it produced. */
  datatype Block = Block(start: nat, step: nat, pending: bool, out: seq<Sample>)

  datatype Trace = Trace(stream: Stream, blocks: seq<Block>)

  /** The caller reports at most a packet store of upstream samples, far below the 32-bit limit. */
  predicate Bounded(ops: seq<Op>) {
    forall i :: 0 <= i < |ops| && ops[i].RenderOp? ==> ops[i].upstream <= MAX_MEASURED - RING
  }

  function EndOf(b: Block): nat { Reading(b.start, b.step, BLOCK) }

  function Apply(t: Trace, op: Op): Trace
    requires Inv(t.stream)
  {
    var s := t.stream;
    match op
    case PushOp(samples, active) => Trace(Pushed(s, samples, active), t.blocks)
    case RenderOp(upstream) =>
      var (s', out) := Rendered(s, upstream);
      if Running(s) && !Underruns(s, upstream) then
        Trace(s', t.blocks + [Block(s.position, StepOf(s'.controller), s.fadePending, out)])
      else Trace(s', t.blocks)
  }

  ghost function Run(ops: seq<Op>): (t: Trace)
    requires Bounded(ops)
    ensures Inv(t.stream)
  {
    if ops == [] then Trace(FRESH, [])
    else
      var t := Run(ops[..|ops| - 1]);
      var op := ops[|ops| - 1];
      if op.RenderOp? then
        RenderKeepsInv(t.stream, op.upstream);
        Apply(t, op)
      else Apply(t, op)
  }

  /** The samples of all accepted pushes, in order. */
  ghost function Accepted(ops: seq<Op>): seq<Sample>
    requires Bounded(ops)
  {
    if ops == [] then []
    else
      var before := Accepted(ops[..|ops| - 1]);
      var op := ops[|ops| - 1];
      if op.PushOp? && |op.samples| <= RING - Run(ops[..|ops| - 1]).stream.Depth() then before + op.samples
      else before
  }

  /** Later pushes do not change what a block read. */
  lemma BlockExtends(samples: seq<Sample>, longer: seq<Sample>, b: Block)
    requires samples <= longer
    requires Covers(|samples|, b.start, b.step) && b.out == BlockOf(samples, b.start, b.step, b.pending)
    ensures Covers(|longer|, b.start, b.step) && b.out == BlockOf(longer, b.start, b.step, b.pending)
  {
    forall i | 0 <= i < BLOCK
      ensures b.out[i] == BlockOf(longer, b.start, b.step, b.pending)[i]
    {
      ReadingCovered(|samples|, b.start, b.step, i);
    }
  }

  /** Where the next block must begin after `end`: exactly there, or at its sample after an underrun. */
  function Resume(end: nat, pending: bool): nat {
    if pending then end / ONE * ONE else end
  }

  ghost predicate Chained(blocks: seq<Block>) {
    && (blocks != [] ==> blocks[0].start == 0)
    && forall j :: 1 <= j < |blocks| ==> blocks[j].start == Resume(EndOf(blocks[j - 1]), blocks[j].pending)
  }

  ghost predicate ReadsStream(samples: seq<Sample>, blocks: seq<Block>) {
    forall j :: 0 <= j < |blocks| ==>
      var b := blocks[j];
      && Covers(|samples|, b.start, b.step)
      && b.out == BlockOf(samples, b.start, b.step, b.pending)
  }

  /** Every output lies on the line through the samples around its position. */
  ghost predicate Drawn(samples: seq<Sample>, b: Block) {
    |b.out| == BLOCK && forall i :: 0 <= i < BLOCK ==> OnLine(samples, b.start + i * b.step, b.pending, i, b.out[i])
  }

  lemma BlockDrawn(samples: seq<Sample>, b: Block)
    requires Covers(|samples|, b.start, b.step) && b.out == BlockOf(samples, b.start, b.step, b.pending)
    ensures Drawn(samples, b)
  {
    forall i | 0 <= i < BLOCK
      ensures OnLine(samples, b.start + i * b.step, b.pending, i, b.out[i])
    {
      OutputOnLine(samples, b.start, b.step, b.pending, i);
    }
  }

  lemma BlocksDrawn(samples: seq<Sample>, blocks: seq<Block>)
    requires ReadsStream(samples, blocks)
    ensures forall j :: 0 <= j < |blocks| ==> Drawn(samples, blocks[j])
  {
    forall j | 0 <= j < |blocks|
      ensures Drawn(samples, blocks[j])
    {
      BlockDrawn(samples, blocks[j]);
    }
  }

  function Last(blocks: seq<Block>): nat {
    if blocks == [] then 0 else EndOf(blocks[|blocks| - 1])
  }

  lemma PushKeepsTrace(t: Trace, samples: seq<Sample>, active: bool)
    requires ReadsStream(t.stream.samples, t.blocks)
    ensures ReadsStream(Pushed(t.stream, samples, active).samples, t.blocks)
  {
    var longer := Pushed(t.stream, samples, active).samples;
    forall j | 0 <= j < |t.blocks|
      ensures Covers(|longer|, t.blocks[j].start, t.blocks[j].step)
      ensures t.blocks[j].out == BlockOf(longer, t.blocks[j].start, t.blocks[j].step, t.blocks[j].pending)
    {
      BlockExtends(t.stream.samples, longer, t.blocks[j]);
    }
  }

  lemma AppendKeepsTrace(samples: seq<Sample>, blocks: seq<Block>, b: Block)
    requires ReadsStream(samples, blocks) && Chained(blocks)
    requires Covers(|samples|, b.start, b.step) && b.out == BlockOf(samples, b.start, b.step, b.pending)
    requires b.start == Resume(Last(blocks), b.pending)
    ensures ReadsStream(samples, blocks + [b]) && Chained(blocks + [b]) && Last(blocks + [b]) == EndOf(b)
  {
  }

  lemma ResumeTwice(end: nat, pending: bool)
    ensures Resume(end, pending) / ONE * ONE == Resume(end, true)
  {
  }

  lemma ApplyKeepsTrace(t: Trace, op: Op)
    requires Inv(t.stream) && (op.RenderOp? ==> op.upstream <= MAX_MEASURED - RING)
    requires ReadsStream(t.stream.samples, t.blocks) && Chained(t.blocks)
    requires t.stream.position == Resume(Last(t.blocks), t.stream.fadePending)
    ensures var t' := Apply(t, op);
      && ReadsStream(t'.stream.samples, t'.blocks) && Chained(t'.blocks)
      && t'.stream.position == Resume(Last(t'.blocks), t'.stream.fadePending)
  {
    var s := t.stream;
    match op
    case PushOp(samples, active) => PushKeepsTrace(t, samples, active);
    case RenderOp(upstream) =>
      if !Running(s) {
      } else if Underruns(s, upstream) {
        ResumeTwice(Last(t.blocks), s.fadePending);
      } else {
        var (s', out) := Rendered(s, upstream);
        AppendKeepsTrace(s.samples, t.blocks, Block(s.position, StepOf(s'.controller), s.fadePending, out));
      }
  }

  /**
    Over every run: the stream is the accepted pushes, its unconsumed tail is what the ring
    holds, every output lies within a unit of the straight line between the two samples of that
    one stream around its position, or of the ramp to it while it fades in, and the blocks chain
    with no gap or overlap except the sub-sample fraction an underrun drops.
    */
  lemma {:induction false} OneStream(ops: seq<Op>)
    requires Bounded(ops)
    ensures var t := Run(ops);
      && t.stream.samples == Accepted(ops)
      && |Accepted(ops)| == t.stream.Consumed() + t.stream.Depth() && 0 <= t.stream.Depth() <= RING
      && ReadsStream(Accepted(ops), t.blocks)
      && (forall j :: 0 <= j < |t.blocks| ==> Drawn(Accepted(ops), t.blocks[j]))
      && Chained(t.blocks)
      && t.stream.position == Resume(Last(t.blocks), t.stream.fadePending)
  {
    if ops != [] {
      OneStream(ops[..|ops| - 1]);
      ApplyKeepsTrace(Run(ops[..|ops| - 1]), ops[|ops| - 1]);
      var op := ops[|ops| - 1];
      if op.RenderOp? {
        RenderKeepsInv(Run(ops[..|ops| - 1]).stream, op.upstream);
      }
      BlocksDrawn(Accepted(ops), Run(ops).blocks);
    }
  }

  /** Two consecutive blocks without an underrun between them read at j * step as if they were one. */
  lemma SeamlessBlocks(ops: seq<Op>, j: nat, i: nat)
    requires Bounded(ops) && j + 1 < |Run(ops).blocks| && i < BLOCK
    requires !Run(ops).blocks[j + 1].pending && Run(ops).blocks[j + 1].step == Run(ops).blocks[j].step
    ensures var b := Run(ops).blocks[j];
      var c := Run(ops).blocks[j + 1];
      && Reading(b.start, b.step, BLOCK + i) / ONE + 1 < |Accepted(ops)|
      && |c.out| == BLOCK && c.out[i] == At(Accepted(ops), Reading(b.start, b.step, BLOCK + i))
  {
    OneStream(ops);
    var b, c := Run(ops).blocks[j], Run(ops).blocks[j + 1];
    assert Reading(c.start, c.step, i) == Reading(b.start, b.step, BLOCK + i) by {
      assert (BLOCK + i) * b.step == BLOCK * b.step + i * b.step;
    }
    ReadingCovered(|Accepted(ops)|, c.start, c.step, i);
    assert c.out[i] == BlockOf(Accepted(ops), c.start, c.step, c.pending)[i];
  }

  // ------------------------------------------------------ a lagging integrator

  lemma RunExtends(ops: seq<Op>, op: Op)
    requires Bounded(ops) && (op.RenderOp? ==> op.upstream <= MAX_MEASURED - RING)
    ensures Bounded(ops + [op]) && Run(ops + [op]) == Apply(Run(ops), op)
  {
    assert (ops + [op])[..|ops|] == ops;
    assert forall i :: 0 <= i < |ops| ==> (ops + [op])[i] == ops[i];
  }

  /** A source is filled up to a depth. */
  lemma FillRun(ops: seq<Op>, depth: nat) returns (longer: seq<Op>)
    requires Bounded(ops) && Run(ops).stream.Depth() <= depth <= RING
    ensures Bounded(longer) && Run(longer).stream.Depth() == depth
    ensures Run(longer).stream.controller == Run(ops).stream.controller
    ensures Run(longer).stream.started == Run(ops).stream.started
  {
    var s := Run(ops).stream;
    var push := PushOp(seq(depth - s.Depth(), _ => 0), true);
    RunExtends(ops, push);
    longer := ops + [push];
  }

  /** And a block is read from it. */
  lemma PlayRun(ops: seq<Op>) returns (longer: seq<Op>)
    requires Bounded(ops) && Running(Run(ops).stream) && Run(ops).stream.Depth() >= 328
    ensures Bounded(longer)
    ensures var s, t := Run(ops).stream, Run(longer).stream;
      t.started && t.controller == NextController(s, 0) && s.Depth() - 327 <= t.Depth() <= s.Depth() - 319
  {
    var s := Run(ops).stream;
    FirstBlockPlays(s, 0);
    RenderConsumes(s, 0);
    RunExtends(ops, RenderOp(0));
    longer := ops + [RenderOp(0)];
  }

  /** One sample short of the target, with the filter settled. */
  ghost predicate Short(c: Controller, n: nat) {
    c.filteredQ8 == (TARGET - 1) * 256 && c.integratorQ16 == -1024 * n
  }

  lemma ShortStep(c: Controller, n: nat)
    requires Short(c, n) && n <= 10000
    ensures Short(Updated(c, TARGET - 1, false), n + 1)
  {
  }

  /** The first block at the target depth, the second eight samples below: the filter is a sample short at once. */
  lemma ShortBegins()
    ensures Updated(IDLE, TARGET, false).filteredQ8 == TARGET * 256 && Updated(IDLE, TARGET, false).integratorQ16 == 0
    ensures Short(Updated(Updated(IDLE, TARGET, false), TARGET - 8, false), 1)
  {
  }

  /** Block after block one sample short. */
  lemma {:induction false} ShortRun(n: nat) returns (ops: seq<Op>)
    requires n <= 10000
    ensures Bounded(ops)
    ensures var s := Run(ops).stream;
      s.started && 328 <= s.Depth() < TARGET - 8 && Short(s.controller, n + 1)
  {
    if n == 0 {
      ops := FillRun([], TARGET);
      ops := PlayRun(ops);
      ops := FillRun(ops, TARGET - 8);
      ShortBegins();
    } else {
      ops := ShortRun(n - 1);
      ops := FillRun(ops, TARGET - 1);
      ShortStep(Run(ops).stream.controller, n);
    }
    ops := PlayRun(ops);
  }

  /**
    It is reached: a source that played 2150 blocks, 43 seconds, one sample short of the target and then holds 1300
    samples, more than the target, is read slower than nominal.
    */
  lemma LaggingIntegrator() returns (ops: seq<Op>)
    ensures Bounded(ops)
    ensures var s := Run(ops).stream;
      && Running(s) && !Underruns(s, 0) && s.Depth() > TARGET
      && NextController(s, 0).filteredQ8 > TARGET * 256 && StepOf(NextController(s, 0)) < ONE
  {
    ops := ShortRun(2149);
    ops := FillRun(ops, 1300);
    var s := Run(ops).stream;
    FirstBlockPlays(s, 0);
    CorrectionFollowsError(s.controller, 1300, false);
  }
}
