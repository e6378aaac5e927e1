/**
  Nothing heard is lost: every observation of a heard or relayed source stays in some bitmap until a STATUS that
  carries it has been sent successfully, or a session reset discards it.

  The steps are the critical sections of the tasks and of the send callback, in any interleaving. A holder pairs
  the bitmaps that the code keeps with the observations they stand for.
  */
module ControlRuns {
  import opened Common
  import opened ControlSpec

  datatype Note = Note(relayed: bool, id: Byte)

  datatype Holder = Holder(marks: Marks, tokens: set<nat>)

  const EMPTY := Holder(NO_MARKS, {})

  /** A packet or a pair of bitmaps in local variables of a task; launched while esp_now_send has not yet answered. */
  datatype Hand = Hand(holder: Holder, launched: bool)

  const IDLE := Hand(EMPTY, false)

  /** The system; observation t is notes[t]. */
  datatype System = System(
    notes: seq<Note>, live: Holder, queue: Queue, queued: seq<set<nat>>, hands: seq<Hand>,
    flight: Option<Holder>, confirmed: set<nat>, discarded: set<nat>)

  const INITIAL := System([], EMPTY, Queue([], 0), [], [], None, {}, {})

  function Merge(a: Holder, b: Holder): Holder { Holder(Join(a.marks, b.marks), a.tokens + b.tokens) }

  function MarkOf(note: Note): Marks {
    if note.relayed then Marks({}, {note.id}) else Marks({note.id}, {})
  }

  function HolderAt(s: System, i: nat): Holder
    requires i < |s.queue.items| && i < |s.queued|
  {
    Holder(s.queue.items[i].marks, s.queued[i])
  }

  // ------------------------------------------------------------------- steps

  datatype Step =
    | Observe(note: Note)
    | Snapshot
    | Offer(hand: nat, item: Item)
    | OfferOther(item: Item)
    | GiveBack(hand: nat)
    | TakeNext(now: int)
    | Launch(hand: nat)
    | Launched(hand: nat)
    | Refused(hand: nat)
    | LaunchOther
    | Done(success: bool)
    | Abandon
    | ResetQueue
    | ResetLive

  /** A STATUS built from the bitmaps in hand; its marks are the ones handed over. */
  predicate IsStatus(item: Item) { item.kind == STATUS && item.len == STATUS_LEN }

  predicate Holds(s: System, hand: nat, launched: bool) { hand < |s.hands| && s.hands[hand].launched == launched }

  /**
    The radio answers a launch once. A packet it refuses gets no callback, so its record is still in flight unless
    the transport was torn down meanwhile.
    */
  predicate Enabled(s: System, step: Step) {
    match step
    case Offer(hand, item) => Holds(s, hand, false) && IsStatus(item) && item.marks == s.hands[hand].holder.marks
    case OfferOther(item) => item.kind != STATUS
    case GiveBack(hand) => Holds(s, hand, false)
    case TakeNext(now) => s.queue.items != []
    case Launch(hand) => Holds(s, hand, false) && s.flight.None?
    case Launched(hand) => Holds(s, hand, true)
    case Refused(hand) => Holds(s, hand, true) && (s.flight.None? || s.flight == Some(s.hands[hand].holder))
    case LaunchOther => s.flight.None?
    case _ => true
  }

  /** The critical section of enqueue_control_packet, which may put an evicted STATUS into the caller's hands. */
  function Put(s: System, item: Item, tokens: set<nat>): System
    requires |s.queued| == |s.queue.items|
  {
    var d := Decide(s.queue.items, item);
    s.(queue := Enqueue(s.queue, item),
       queued := Placed(s.queued, d, tokens, if d.Coalesce? then tokens + s.queued[d.at] else tokens),
       hands := if d.Evict? && s.queue.items[d.victim].kind == STATUS
                then s.hands + [Hand(HolderAt(s, d.victim), false)] else s.hands)
  }

  function Take(s: System, now: int): System
    requires |s.queued| == |s.queue.items| && s.queue.items != []
  {
    var i := Select(s.queue.items, now);
    s.(queue := Dequeue(s.queue, now).0,
       queued := Without(s.queued, i),
       hands := s.hands + [Hand(if s.queue.items[i].kind == STATUS then HolderAt(s, i) else EMPTY, false)])
  }

  function Union(ss: seq<set<nat>>): set<nat> {
    if ss == [] then {} else Union(ss[..|ss| - 1]) + ss[|ss| - 1]
  }

  function Next(s: System, step: Step): System
    requires |s.queued| == |s.queue.items| && Enabled(s, step)
  {
    match step
    case Observe(note) =>
      s.(notes := s.notes + [note], live := Merge(s.live, Holder(MarkOf(note), {|s.notes|})))
    case Snapshot => s.(live := EMPTY, hands := s.hands + [Hand(s.live, false)])
    case Offer(hand, item) =>
      if Decide(s.queue.items, item).Reject? then s
      else
        var after := Put(s, item, s.hands[hand].holder.tokens);
        after.(hands := after.hands[hand := IDLE])
    case OfferOther(item) => Put(s, item, {})
    case GiveBack(hand) => s.(live := Merge(s.live, s.hands[hand].holder), hands := s.hands[hand := IDLE])
    case TakeNext(now) => Take(s, now)
    case Launch(hand) =>
      s.(flight := Some(s.hands[hand].holder), hands := s.hands[hand := s.hands[hand].(launched := true)])
    case Launched(hand) => s.(hands := s.hands[hand := IDLE])
    case Refused(hand) => s.(flight := None, hands := s.hands[hand := s.hands[hand].(launched := false)])
    case LaunchOther => s.(flight := Some(EMPTY))
    case Done(success) =>
      if s.flight.None? then s
      else if success then s.(confirmed := s.confirmed + s.flight.value.tokens, flight := None)
      else s.(live := Merge(s.live, s.flight.value), flight := None)
    case Abandon =>
      if s.flight.None? then s else s.(live := Merge(s.live, s.flight.value), flight := None)
    case ResetQueue =>
      s.(queue := Queue([], s.queue.next), queued := [], discarded := s.discarded + Union(s.queued))
    case ResetLive => s.(live := EMPTY, discarded := s.discarded + s.live.tokens)
  }

  // --------------------------------------------------------------- invariant

  ghost function MarksOf(notes: seq<Note>, tokens: set<nat>): Marks {
    Marks(set t | t in tokens && t < |notes| && !notes[t].relayed :: notes[t].id,
          set t | t in tokens && t < |notes| && notes[t].relayed :: notes[t].id)
  }

  /** A holder's bitmaps are exactly the bits of its observations. */
  ghost predicate Faithful(notes: seq<Note>, h: Holder) {
    && (forall t :: t in h.tokens ==> t < |notes|)
    && h.marks == MarksOf(notes, h.tokens)
  }

  ghost predicate QueueFaithful(s: System) {
    && |s.queued| == |s.queue.items|
    && forall i :: 0 <= i < |s.queued| ==> ItemFaithful(s.notes, s.queue.items[i], s.queued[i])
  }

  ghost predicate ItemFaithful(notes: seq<Note>, item: Item, tokens: set<nat>) {
    if item.kind == STATUS then IsStatus(item) && Faithful(notes, Holder(item.marks, tokens)) else tokens == {}
  }

  ghost predicate HandsFaithful(s: System) {
    forall k :: 0 <= k < |s.hands| ==> Faithful(s.notes, s.hands[k].holder)
  }

  ghost predicate InHand(s: System, t: nat) {
    exists k :: 0 <= k < |s.hands| && !s.hands[k].launched && t in s.hands[k].holder.tokens
  }

  ghost predicate InQueue(s: System, t: nat) {
    exists i :: 0 <= i < |s.queued| && t in s.queued[i]
  }

  ghost predicate InFlight(s: System, t: nat) { s.flight.Some? && t in s.flight.value.tokens }

  /** Where an observation can be. */
  ghost predicate Known(s: System, t: nat) {
    t in s.live.tokens || InQueue(s, t) || InHand(s, t) || InFlight(s, t) || t in s.confirmed || t in s.discarded
  }

  ghost predicate Inv(s: System) {
    && QueueFaithful(s) && HandsFaithful(s) && Faithful(s.notes, s.live)
    && (s.flight.Some? ==> Faithful(s.notes, s.flight.value))
    && forall t :: 0 <= t < |s.notes| ==> Known(s, t)
  }

  // ------------------------------------------------------------------ proofs

  lemma MergeFaithful(notes: seq<Note>, a: Holder, b: Holder)
    requires Faithful(notes, a) && Faithful(notes, b)
    ensures Faithful(notes, Merge(a, b))
  {
  }

  lemma NothingFaithful(notes: seq<Note>)
    ensures Faithful(notes, EMPTY)
  {
  }

  /** A new observation changes no earlier holder. */
  lemma StaysFaithful(notes: seq<Note>, note: Note, h: Holder)
    requires Faithful(notes, h)
    ensures Faithful(notes + [note], h)
  {
  }

  lemma NoteFaithful(notes: seq<Note>, note: Note)
    ensures Faithful(notes + [note], Holder(MarkOf(note), {|notes|}))
  {
  }

  lemma ObserveKeepsInv(s: System, note: Note)
    requires Inv(s)
    ensures Inv(Next(s, Observe(note)))
  {
    var after := Next(s, Observe(note));
    NoteFaithful(s.notes, note);
    StaysFaithful(s.notes, note, s.live);
    MergeFaithful(after.notes, s.live, Holder(MarkOf(note), {|s.notes|}));
    forall i | 0 <= i < |s.queued|
      ensures ItemFaithful(after.notes, s.queue.items[i], s.queued[i])
    {
      assert ItemFaithful(s.notes, s.queue.items[i], s.queued[i]);
      if s.queue.items[i].kind == STATUS {
        StaysFaithful(s.notes, note, HolderAt(s, i));
      }
    }
    forall k | 0 <= k < |s.hands|
      ensures Faithful(after.notes, s.hands[k].holder)
    {
      StaysFaithful(s.notes, note, s.hands[k].holder);
    }
    if s.flight.Some? {
      StaysFaithful(s.notes, note, s.flight.value);
    }
    forall t | 0 <= t < |after.notes|
      ensures Known(after, t)
    {
      assert t < |s.notes| ==> Known(s, t);
      assert InHand(s, t) ==> InHand(after, t);
      assert InQueue(s, t) ==> InQueue(after, t);
    }
  }

  lemma HandAdded(s: System, h: Hand, t: nat)
    ensures InHand(s, t) ==> InHand(s.(hands := s.hands + [h]), t)
    ensures !h.launched && t in h.holder.tokens ==> InHand(s.(hands := s.hands + [h]), t)
  {
    var all := s.hands + [h];
    assert all[|s.hands|] == h;
    if InHand(s, t) {
      var k :| 0 <= k < |s.hands| && !s.hands[k].launched && t in s.hands[k].holder.tokens;
      assert all[k] == s.hands[k];
    }
  }

  lemma CoalesceFaithful(s: System, item: Item, tokens: set<nat>)
    requires QueueFaithful(s) && ItemFaithful(s.notes, item, tokens) && Decide(s.queue.items, item).Coalesce?
    ensures QueueFaithful(Put(s, item, tokens))
    ensures forall t :: InQueue(s, t) || t in tokens ==> InQueue(Put(s, item, tokens), t)
  {
    var at := Decide(s.queue.items, item).at;
    var after := Put(s, item, tokens);
    assert ItemFaithful(s.notes, s.queue.items[at], s.queued[at]);
    if item.kind == STATUS {
      MergeFaithful(s.notes, Holder(item.marks, tokens), HolderAt(s, at));
    }
    assert after.queued[at] == tokens + s.queued[at];
    forall i | 0 <= i < |s.queued|
      ensures ItemFaithful(s.notes, after.queue.items[i], after.queued[i])
      ensures s.queued[i] <= after.queued[i]
    {
      assert ItemFaithful(s.notes, s.queue.items[i], s.queued[i]);
    }
  }

  lemma AppendFaithful(s: System, item: Item, tokens: set<nat>)
    requires QueueFaithful(s) && ItemFaithful(s.notes, item, tokens) && Decide(s.queue.items, item).Append?
    ensures QueueFaithful(Put(s, item, tokens))
    ensures forall t :: InQueue(s, t) || t in tokens ==> InQueue(Put(s, item, tokens), t)
  {
    var after := Put(s, item, tokens);
    assert after.queued[|s.queued|] == tokens;
    forall i | 0 <= i < |s.queued|
      ensures ItemFaithful(s.notes, after.queue.items[i], after.queued[i])
      ensures s.queued[i] == after.queued[i]
    {
      assert ItemFaithful(s.notes, s.queue.items[i], s.queued[i]);
    }
  }

  /** Taking element i out of the queue leaves the rest in place. */
  lemma TakenFaithful(s: System, i: nat)
    requires QueueFaithful(s) && i < |s.queued|
    ensures QueueFaithful(Shortened(s, i))
    ensures forall t :: InQueue(s, t) ==> t in s.queued[i] || InQueue(Shortened(s, i), t)
  {
    WithoutAt(s.queued, i);
    var queued, items := Without(s.queued, i), Without(s.queue.items, i);
    forall j | 0 <= j < |queued|
      ensures ItemFaithful(s.notes, items[j], queued[j])
    {
      var was := if j == i then |s.queued| - 1 else j;
      assert ItemFaithful(s.notes, s.queue.items[was], s.queued[was]);
    }
    forall t | InQueue(s, t) && t !in s.queued[i]
      ensures InQueue(Shortened(s, i), t)
    {
      var j :| 0 <= j < |s.queued| && t in s.queued[j];
      var now :| 0 <= now < |queued| && queued[now] == s.queued[j];
    }
  }

  function Shortened(s: System, i: nat): System
    requires |s.queued| == |s.queue.items| && i < |s.queued|
  {
    s.(queue := Queue(Without(s.queue.items, i), s.queue.next), queued := Without(s.queued, i))
  }

  lemma EvictFaithful(s: System, item: Item, tokens: set<nat>)
    requires QueueFaithful(s) && ItemFaithful(s.notes, item, tokens) && Decide(s.queue.items, item).Evict?
    ensures QueueFaithful(Put(s, item, tokens))
    ensures var v := Decide(s.queue.items, item).victim;
      forall t :: InQueue(s, t) ==> t in s.queued[v] || InQueue(Put(s, item, tokens), t)
    ensures forall t :: t in tokens ==> InQueue(Put(s, item, tokens), t)
  {
    var v := Decide(s.queue.items, item).victim;
    var after := Put(s, item, tokens);
    TakenFaithful(s, v);
    var left := Shortened(s, v);
    assert after.queued == left.queued + [tokens];
    assert after.queued[|left.queued|] == tokens;
    forall i | 0 <= i < |left.queued|
      ensures ItemFaithful(s.notes, after.queue.items[i], after.queued[i])
      ensures after.queued[i] == left.queued[i]
    {
      assert ItemFaithful(s.notes, left.queue.items[i], left.queued[i]);
    }
  }

  /** Observation t is in a hand that was added after s. */
  ghost predicate InNewHand(s: System, after: System, t: nat) {
    exists k :: |s.hands| <= k < |after.hands| && !after.hands[k].launched && t in after.hands[k].holder.tokens
  }

  /** What was queued stays queued or goes to a new hand, and an accepted offer is queued. */
  lemma PutKeeps(s: System, item: Item, tokens: set<nat>)
    requires QueueFaithful(s) && HandsFaithful(s) && ItemFaithful(s.notes, item, tokens)
    ensures var after := Put(s, item, tokens);
      && QueueFaithful(after) && HandsFaithful(after) && s.hands <= after.hands
      && (forall t :: InQueue(s, t) ==> InQueue(after, t) || InNewHand(s, after, t))
      && (!Decide(s.queue.items, item).Reject? ==> forall t :: t in tokens ==> InQueue(after, t))
  {
    var after := Put(s, item, tokens);
    match Decide(s.queue.items, item) {
      case Coalesce(at) => CoalesceFaithful(s, item, tokens);
      case Append => AppendFaithful(s, item, tokens);
      case Evict(v) =>
        EvictFaithful(s, item, tokens);
        assert ItemFaithful(s.notes, s.queue.items[v], s.queued[v]);
        if s.queue.items[v].kind == STATUS {
          assert after.hands[|s.hands|] == Hand(HolderAt(s, v), false);
        }
      case Reject =>
    }
  }

  lemma OfferKeepsInv(s: System, hand: nat, item: Item)
    requires Inv(s) && Enabled(s, Offer(hand, item))
    ensures Inv(Next(s, Offer(hand, item)))
  {
    var tokens := s.hands[hand].holder.tokens;
    if !Decide(s.queue.items, item).Reject? {
      assert Faithful(s.notes, s.hands[hand].holder);
      PutKeeps(s, item, tokens);
      NothingFaithful(s.notes);
      var put := Put(s, item, tokens);
      var after := Next(s, Offer(hand, item));
      forall t | 0 <= t < |s.notes|
        ensures Known(after, t)
      {
        assert Known(s, t);
        assert InQueue(put, t) ==> InQueue(after, t);
        if InNewHand(s, put, t) {
          var k :| |s.hands| <= k < |put.hands| && !put.hands[k].launched && t in put.hands[k].holder.tokens;
          assert after.hands[k] == put.hands[k];
        }
        if InHand(s, t) {
          var k :| 0 <= k < |s.hands| && !s.hands[k].launched && t in s.hands[k].holder.tokens;
          assert k != hand ==> after.hands[k] == s.hands[k];
        }
      }
    }
  }

  lemma OfferOtherKeepsInv(s: System, item: Item)
    requires Inv(s) && Enabled(s, OfferOther(item))
    ensures Inv(Next(s, OfferOther(item)))
  {
    PutKeeps(s, item, {});
    var after := Put(s, item, {});
    forall t | 0 <= t < |s.notes|
      ensures Known(after, t)
    {
      assert Known(s, t);
      if InHand(s, t) {
        var k :| 0 <= k < |s.hands| && !s.hands[k].launched && t in s.hands[k].holder.tokens;
        assert after.hands[k] == s.hands[k];
      }
    }
  }

  lemma TakeNextKeepsInv(s: System, now: int)
    requires Inv(s) && s.queue.items != []
    ensures Inv(Next(s, TakeNext(now)))
  {
    var i := Select(s.queue.items, now);
    TakenFaithful(s, i);
    NothingFaithful(s.notes);
    assert ItemFaithful(s.notes, s.queue.items[i], s.queued[i]);
    var hand := Hand(if s.queue.items[i].kind == STATUS then HolderAt(s, i) else EMPTY, false);
    var after := Next(s, TakeNext(now));
    var rest := Shortened(s, i);
    forall t | 0 <= t < |s.notes|
      ensures Known(after, t)
    {
      assert Known(s, t);
      HandAdded(s, hand, t);
      assert InHand(s.(hands := s.hands + [hand]), t) ==> InHand(after, t);
      assert InQueue(rest, t) ==> InQueue(after, t);
    }
  }

  /** The steps that move bitmaps between a task's hands, the live bitmaps and the transmission in flight. */
  predicate MovesHand(step: Step) {
    step.GiveBack? || step.Launch? || step.Launched? || step.Refused?
  }

  lemma HandStepsKeepInv(s: System, step: Step)
    requires Inv(s) && Enabled(s, step) && MovesHand(step)
    ensures Inv(Next(s, step))
  {
    var after := Next(s, step);
    var hand := step.hand;
    NothingFaithful(s.notes);
    assert Faithful(s.notes, s.hands[hand].holder);
    MergeFaithful(s.notes, s.live, s.hands[hand].holder);
    forall t | 0 <= t < |s.notes|
      ensures Known(after, t)
    {
      assert Known(s, t);
      assert InQueue(s, t) ==> InQueue(after, t);
      if InHand(s, t) {
        HandStepKeepsHands(s, step, t);
      }
      if step.Refused? && InFlight(s, t) {
        assert !after.hands[hand].launched && t in after.hands[hand].holder.tokens;
      }
    }
  }

  lemma HandStepKeepsHands(s: System, step: Step, t: nat)
    requires |s.queued| == |s.queue.items| && Enabled(s, step) && MovesHand(step) && InHand(s, t)
    ensures InHand(Next(s, step), t) || (!s.hands[step.hand].launched && t in s.hands[step.hand].holder.tokens)
  {
    var k :| 0 <= k < |s.hands| && !s.hands[k].launched && t in s.hands[k].holder.tokens;
    assert k != step.hand ==> Next(s, step).hands[k] == s.hands[k];
  }

  lemma {:induction false} UnionHolds(ss: seq<set<nat>>, i: nat, t: nat)
    requires i < |ss| && t in ss[i]
    ensures t in Union(ss)
  {
    if i < |ss| - 1 {
      assert ss[..|ss| - 1][i] == ss[i];
      UnionHolds(ss[..|ss| - 1], i, t);
    }
  }

  lemma OtherStepsKeepInv(s: System, step: Step)
    requires Inv(s) && Enabled(s, step) && !MovesHand(step)
    requires !step.Observe? && !step.Offer? && !step.OfferOther? && !step.TakeNext?
    ensures Inv(Next(s, step))
  {
    var after := Next(s, step);
    NothingFaithful(s.notes);
    if s.flight.Some? {
      MergeFaithful(s.notes, s.live, s.flight.value);
    }
    forall t | 0 <= t < |s.notes|
      ensures Known(after, t)
    {
      assert Known(s, t);
      if step.ResetQueue? && InQueue(s, t) {
        var i :| 0 <= i < |s.queued| && t in s.queued[i];
        UnionHolds(s.queued, i, t);
      }
      if step.Snapshot? {
        HandAdded(s, Hand(s.live, false), t);
        assert InHand(s.(hands := s.hands + [Hand(s.live, false)]), t) ==> InHand(after, t);
      } else {
        assert InHand(s, t) ==> InHand(after, t);
      }
      assert !step.ResetQueue? && InQueue(s, t) ==> InQueue(after, t);
    }
  }

  lemma NextKeepsInv(s: System, step: Step)
    requires Inv(s) && Enabled(s, step)
    ensures Inv(Next(s, step))
  {
    if step.Observe? {
      ObserveKeepsInv(s, step.note);
    } else if step.Offer? {
      OfferKeepsInv(s, step.hand, step.item);
    } else if step.OfferOther? {
      OfferOtherKeepsInv(s, step.item);
    } else if step.TakeNext? {
      TakeNextKeepsInv(s, step.now);
    } else if MovesHand(step) {
      HandStepsKeepInv(s, step);
    } else {
      OtherStepsKeepInv(s, step);
    }
  }

  // -------------------------------------------------------------------- runs

  ghost predicate RunOk(s: System, steps: seq<Step>)
    requires Inv(s)
    decreases |steps|
  {
    steps != [] ==>
      && Enabled(s, steps[0])
      && (NextKeepsInv(s, steps[0]); RunOk(Next(s, steps[0]), steps[1..]))
  }

  ghost function Run(s: System, steps: seq<Step>): (after: System)
    requires Inv(s) && RunOk(s, steps)
    ensures Inv(after)
    decreases |steps|
  {
    if steps == [] then s
    else
      NextKeepsInv(s, steps[0]);
      Run(Next(s, steps[0]), steps[1..])
  }

  lemma InitialInv()
    ensures Inv(INITIAL)
  {
    NothingFaithful([]);
  }

  /** The steps are a run from the start. */
  ghost predicate Possible(steps: seq<Step>) {
    InitialInv();
    RunOk(INITIAL, steps)
  }

  /** Where they lead. */
  ghost function Reached(steps: seq<Step>): (s: System)
    requires Possible(steps)
    ensures Inv(s)
  {
    InitialInv();
    Run(INITIAL, steps)
  }

  predicate HasMark(marks: Marks, note: Note) {
    if note.relayed then note.id in marks.relayed else note.id in marks.heard
  }

  /** A STATUS with the bit of an observation. */
  predicate StatusMarks(item: Item, note: Note) { item.kind == STATUS && HasMark(item.marks, note) }

  /**
    The bit of an observation is set in the live bitmaps, a queued STATUS, a packet taken but not yet launched, or the
    one in flight.
    */
  ghost predicate BitHeld(s: System, note: Note) {
    || HasMark(s.live.marks, note)
    || (exists i :: 0 <= i < |s.queue.items| && StatusMarks(s.queue.items[i], note))
    || (exists k :: 0 <= k < |s.hands| && !s.hands[k].launched && HasMark(s.hands[k].holder.marks, note))
    || (s.flight.Some? && HasMark(s.flight.value.marks, note))
  }

  lemma FaithfulHasMark(notes: seq<Note>, h: Holder, t: nat)
    requires Faithful(notes, h) && t in h.tokens
    ensures t < |notes| && HasMark(h.marks, notes[t])
  {
  }

  /**
    After any run from the start, every observation that no successful STATUS has reported and no reset has discarded
    still has its bit set somewhere.
    */
  lemma NothingIsLost(steps: seq<Step>, t: nat)
    requires Possible(steps) && t < |Reached(steps).notes|
    ensures var s := Reached(steps);
      t in s.confirmed || t in s.discarded || BitHeld(s, s.notes[t])
  {
    var s := Reached(steps);
    assert Known(s, t);
    if t in s.live.tokens {
      FaithfulHasMark(s.notes, s.live, t);
    } else if InFlight(s, t) {
      FaithfulHasMark(s.notes, s.flight.value, t);
    } else if InQueue(s, t) {
      var i :| 0 <= i < |s.queued| && t in s.queued[i];
      assert ItemFaithful(s.notes, s.queue.items[i], s.queued[i]);
      FaithfulHasMark(s.notes, HolderAt(s, i), t);
    } else if InHand(s, t) {
      var k :| 0 <= k < |s.hands| && !s.hands[k].launched && t in s.hands[k].holder.tokens;
      FaithfulHasMark(s.notes, s.hands[k].holder, t);
    }
  }

  /** An observation is confirmed only by a successful STATUS with its bit, and discarded only by a reset. */
  lemma ConfirmedWasSent(s: System, step: Step, t: nat)
    requires Inv(s) && Enabled(s, step)
    ensures t in Next(s, step).confirmed && t !in s.confirmed ==>
              step == Done(true) && s.flight.Some? && t < |s.notes| && HasMark(s.flight.value.marks, s.notes[t])
    ensures t in Next(s, step).discarded && t !in s.discarded ==> step.ResetQueue? || step.ResetLive?
  {
  }

  /** No bitmap ever claims a source that was not observed. */
  lemma NothingIsInvented(s: System, note: Note)
    requires Inv(s) && BitHeld(s, note)
    ensures note in s.notes
  {
  }
}
