/** Both threads at once, the worker's own steps included: every interleaving is a pipeline
    run, and what an utterance holds and reports is the same under all of them.

    The overflow counter is read relaxed: a load may be stale, but never older than the last
    one, nor than what the counter was when a block was published whose publication the
    worker has seen. */
module Interleaving {
  import opened Prelude
  import opened Callback
  import opened Buffers
  import opened WorkerSpec
  import opened Pipeline
  import opened Sessions
  import opened ChunkInvariance
  import Laws = CallbackLaws
  import Ring = RingProtocol
  import Runs = Pipeline

  /** The ring with both its ends, and the worker behind the consuming one. `twin` is the worker
      as it would be had it read the overflow counter up to date; `overflowsAt` is what the
      counter was at each publication. */
  datatype System<T> = System(
    ring: Ring.Machine<T>, worker: Worker<T>, finishing: Option<nat>, seenOverflows: nat,
    twin: Worker<T>, overflowsAt: seq<nat>)

  /** An atomic action of either thread, or a step the worker takes between two blocks. A block
      is processed as it is released. Finishing is popping until a load finds the ring empty,
      and then the seal; begin and the seal load the overflow counter. */
  datatype Step<T> =
    | Shared(action: Ring.Action<T>)
    | Begin(seen: nat) | Finish | Seal(seen: nat) | End | Clear

  function Overflowed<T>(x: System<T>): nat { x.ring.capture.producer.counters.overflows }

  /** No load of the overflow counter gives less. */
  function Floor<T>(x: System<T>): nat {
    var published := if 0 < x.ring.seenPublished <= |x.overflowsAt| then x.overflowsAt[x.ring.seenPublished - 1] else 0;
    if published < x.seenOverflows then x.seenOverflows else published
  }

  /** The worker is between two calls. */
  predicate Between<T>(x: System<T>) { x.ring.loading.None? && x.finishing.None? }

  ghost predicate Enabled<T>(native: Native, x: System<T>, step: Step<T>) {
    match step
    case Shared(a) => Ring.Enabled(native, x.ring, a)
    case Begin(seen) => Between(x) && Floor(x) <= seen <= Overflowed(x)
    case Seal(seen) =>
      && x.ring.loading.None? && x.finishing.Some? && x.ring.seenPublished == x.ring.consumed
      && Floor(x) <= seen <= Overflowed(x)
    case _ => Between(x)
  }

  /** The step's indices are in bounds and the worker's buffers hold what they must. */
  ghost predicate Allowed<T>(s: Setup<T>, x: System<T>, step: Step<T>)
    requires Enabled(s.config.native, x, step)
  {
    && SetupOk(s) && Bounded(s, x.worker) && Bounded(s, x.twin)
    && (step.Shared? ==> Ring.InBounds(s.config.native, x.ring, step.action))
  }

  /** Blocks processed since finishing began. */
  function Drained<T>(x: System<T>): nat {
    if x.finishing.Some? && x.finishing.value <= x.worker.counters.blocksProcessed
    then x.worker.counters.blocksProcessed - x.finishing.value else 0
  }

  ghost function Act<T>(s: Setup<T>, zero: T, x: System<T>, a: Ring.Action<T>): System<T>
    requires Enabled(s.config.native, x, Shared(a)) && Allowed(s, x, Shared(a))
  {
    var next := x.(ring := Ring.Do(s.config.native, zero, x.ring, a));
    match a
    case PublishBlock => next.(overflowsAt := x.overflowsAt + [Overflowed(x)])
    case Release =>
      var b := Ring.Decode(s.config.native, x.ring.loading.value, zero);
      next.(worker := Process(s, x.worker, b), twin := Process(s, x.twin, b))
    case _ => next
  }

  ghost function Take<T>(s: Setup<T>, zero: T, x: System<T>, step: Step<T>): System<T>
    requires Enabled(s.config.native, x, step) && Allowed(s, x, step)
  {
    match step
    case Shared(a) => Act(s, zero, x, a)
    case Begin(seen) =>
      if x.worker.active then x
      else x.(worker := Begun(x.worker, seen), twin := Begun(x.twin, Overflowed(x)), seenOverflows := seen)
    case Finish =>
      if x.worker.active then x.(finishing := Some(x.worker.counters.blocksProcessed)) else x
    case Seal(seen) =>
      x.(worker := Sealed(x.worker, Drained(x), seen).0, twin := Sealed(x.twin, Drained(x), Overflowed(x)).0,
         finishing := None, seenOverflows := seen)
    case End => x.(worker := WorkerSpec.End(x.worker), twin := WorkerSpec.End(x.twin))
    case Clear => x.(worker := WorkerSpec.Clear(x.worker), twin := WorkerSpec.Clear(x.twin))
  }

  ghost predicate IsRun<T>(s: Setup<T>, zero: T, states: seq<System<T>>, steps: seq<Step<T>>) {
    && |states| == |steps| + 1
    && forall i :: 0 <= i < |steps| ==>
         && Enabled(s.config.native, states[i], steps[i]) && Allowed(s, states[i], steps[i])
         && states[i + 1] == Take(s, zero, states[i], steps[i])
  }

  ghost predicate Initial<T>(native: Native, x: System<T>) {
    && Ring.Initial(native, x.ring)
    && x == System(x.ring, InitialWorker(), None, 0, InitialWorker(), [])
  }

  // ---- as a pipeline ----

  /** The pipeline of the up-to-date twin. */
  function PipelineOf<T>(x: System<T>): Pipeline<T> {
    Pipeline(x.ring.capture, x.twin)
  }

  /** The worker is its twin but for what a stale load can change. */
  ghost predicate Twins<T>(w: Worker<T>, twin: Worker<T>) {
    && w == twin.(overflowsAtStart := w.overflowsAtStart, issues := w.issues)
    && (w.active ==> w.issues == twin.issues)
  }

  ghost predicate Counts<T>(x: System<T>) {
    && |x.overflowsAt| == x.ring.published
    && (forall k :: 0 <= k < |x.overflowsAt| ==> x.overflowsAt[k] <= Overflowed(x))
    && x.seenOverflows <= Overflowed(x)
    && (x.worker.active ==> x.worker.overflowsAtStart <= x.seenOverflows)
    && (x.finishing.Some? ==> x.worker.active && x.finishing.value <= x.worker.counters.blocksProcessed)
  }

  ghost predicate Good<T>(s: Setup<T>, x: System<T>) {
    && Ring.Inv(s.config.native, x.ring) && Inv(s, PipelineOf(x))
    && x.ring.consumed == Taken(PipelineOf(x))
    && Twins(x.worker, x.twin) && Counts(x)
  }

  /** The pipeline operation a step completes, if it completes one. */
  function Completes<T>(native: Native, x: System<T>, step: Step<T>): Option<Op<T>> {
    match step
    case Shared(Arrive(call)) => Some(Op.Arrive(call))
    case Shared(ObserveConsumed(v)) => if x.ring.published >= v + native.slots then Some(Op.DropRest) else None
    case Shared(PublishBlock) => Some(Op.PublishOne)
    case Shared(Release) => Some(Op.ProcessNext)
    case Shared(_) => None
    case Begin(_) => Some(Op.BeginUtterance)
    case Finish => None
    case Seal(_) => Some(Op.Seal(Drained(x)))
    case End => Some(Op.EndUtterance)
    case Clear => Some(Op.ClearUtterance)
  }

  lemma StartIsGood<T>(s: Setup<T>, x: System<T>)
    requires SetupOk(s) && Initial(s.config.native, x)
    ensures Good(s, x) && PipelineOf(x) == Start()
  {
    Laws.InitialInv<T>(s.config.native);
    StartInv(s);
  }

  /** The step is the operation it completes, or changes nothing the pipeline knows of. */
  lemma StepAgrees<T>(s: Setup<T>, zero: T, x: System<T>, step: Step<T>)
    requires Good(s, x) && Enabled(s.config.native, x, step) && Allowed(s, x, step)
    ensures var p, d, op := PipelineOf(x), PipelineOf(Take(s, zero, x, step)), Completes(s.config.native, x, step);
      if op.None? then d == p else Runs.Enabled(s, p, op.value) && d == Do(s, p, op.value)
    ensures var y := Take(s, zero, x, step); y.ring.consumed == Taken(PipelineOf(y))
  {
    if step == Shared(Ring.Release) {
      ReleaseAgrees(s, zero, x);
    } else if step.Shared? {
      SharedAgrees(s, zero, x, step.action);
    } else {
      OwnAgrees(s, zero, x, step);
    }
  }

  lemma SharedAgrees<T>(s: Setup<T>, zero: T, x: System<T>, a: Ring.Action<T>)
    requires Good(s, x) && Enabled(s.config.native, x, Shared(a)) && Allowed(s, x, Shared(a)) && !a.Release?
    ensures var p, d, op := PipelineOf(x), PipelineOf(Act(s, zero, x, a)), Completes(s.config.native, x, Shared(a));
      if op.None? then d == p else Runs.Enabled(s, p, op.value) && d == Do(s, p, op.value)
    ensures Act(s, zero, x, a).ring.consumed == x.ring.consumed
    ensures Act(s, zero, x, a).twin == x.twin
  {
  }

  lemma OwnAgrees<T>(s: Setup<T>, zero: T, x: System<T>, step: Step<T>)
    requires Good(s, x) && Enabled(s.config.native, x, step) && Allowed(s, x, step) && !step.Shared?
    ensures var p, d, op := PipelineOf(x), PipelineOf(Take(s, zero, x, step)), Completes(s.config.native, x, step);
      if op.None? then d == p else Runs.Enabled(s, p, op.value) && d == Do(s, p, op.value)
    ensures var y := Take(s, zero, x, step);
      y.ring == x.ring && y.twin.counters.blocksProcessed == x.twin.counters.blocksProcessed
  {
  }

  lemma ReleaseAgrees<T>(s: Setup<T>, zero: T, x: System<T>)
    requires Good(s, x) && Enabled(s.config.native, x, Shared(Ring.Release))
    requires Allowed(s, x, Shared(Ring.Release))
    ensures Queue(PipelineOf(x)) != []
    ensures var y := Act(s, zero, x, Ring.Release);
      && y.ring.capture == x.ring.capture
      && y.twin == Process(s, x.twin, Queue(PipelineOf(x))[0])
      && y.worker == Process(s, x.worker, Queue(PipelineOf(x))[0])
      && y.ring.consumed == Taken(PipelineOf(y))
  {
    Ring.CopyIsWhole(s.config.native, zero, x.ring);
    assert x.ring.consumed < |x.ring.capture.enqueued|;
    BlockCounted(s, x.twin, x.ring.capture.enqueued[x.ring.consumed]);
  }

  lemma TwinsProcess<T>(s: Setup<T>, w: Worker<T>, twin: Worker<T>, b: Block<T>)
    requires SetupOk(s) && Bounded(s, w) && Bounded(s, twin) && Twins(w, twin)
    ensures var d, e := Process(s, w, b), Process(s, twin, b);
      && Twins(d, e) && d.active == w.active && d.overflowsAtStart == w.overflowsAtStart
      && d.counters.blocksProcessed == w.counters.blocksProcessed + 1
  {
  }

  lemma TwinsStay<T>(s: Setup<T>, zero: T, x: System<T>, step: Step<T>)
    requires Good(s, x) && Enabled(s.config.native, x, step) && Allowed(s, x, step)
    ensures var y := Take(s, zero, x, step); Twins(y.worker, y.twin) && Counts(y)
  {
    if step == Shared(Ring.Release) {
      ReleaseAgrees(s, zero, x);
      TwinsProcess(s, x.worker, x.twin, Queue(PipelineOf(x))[0]);
    } else if step.Shared? {
      SharedCounts(s, zero, x, step.action);
    }
  }

  lemma SharedCounts<T>(s: Setup<T>, zero: T, x: System<T>, a: Ring.Action<T>)
    requires Good(s, x) && Enabled(s.config.native, x, Shared(a)) && Allowed(s, x, Shared(a)) && !a.Release?
    ensures var y := Act(s, zero, x, a);
      && y.worker == x.worker && y.twin == x.twin && Counts(y)
  {
  }

  lemma StepIsGood<T>(s: Setup<T>, zero: T, x: System<T>, step: Step<T>)
    requires Good(s, x) && Enabled(s.config.native, x, step)
    ensures Allowed(s, x, step) && Good(s, Take(s, zero, x, step))
  {
    if step.Shared? { Ring.StepKeeps(s.config.native, zero, x.ring, step.action); }
    StepAgrees(s, zero, x, step);
    TwinsStay(s, zero, x, step);
    var op := Completes(s.config.native, x, step);
    if op.Some? { StepKeeps(s, PipelineOf(x), op.value); }
  }

  lemma {:induction false} RunIsGood<T>(s: Setup<T>, zero: T, states: seq<System<T>>, steps: seq<Step<T>>, i: nat)
    requires SetupOk(s) && IsRun(s, zero, states, steps) && Initial(s.config.native, states[0]) && i < |states|
    ensures Good(s, states[i])
  {
    if i == 0 {
      StartIsGood(s, states[0]);
    } else {
      RunIsGood(s, zero, states, steps, i - 1);
      StepIsGood(s, zero, states[i - 1], steps[i - 1]);
    }
  }

  /** No run gets stuck on a bad index or a full buffer, whatever step comes next. */
  lemma NothingPanics<T>(s: Setup<T>, zero: T, states: seq<System<T>>, steps: seq<Step<T>>, step: Step<T>)
    requires SetupOk(s) && IsRun(s, zero, states, steps) && Initial(s.config.native, states[0])
    requires Enabled(s.config.native, states[|steps|], step)
    ensures Allowed(s, states[|steps|], step)
  {
    RunIsGood(s, zero, states, steps, |steps|);
    StepIsGood(s, zero, states[|steps|], step);
  }

  lemma RunExtends<T>(s: Setup<T>, states: seq<Pipeline<T>>, ops: seq<Op<T>>, op: Op<T>)
    requires Runs.IsRun(s, states, ops)
    requires Ready(s, states[|ops|]) && Runs.Enabled(s, states[|ops|], op)
    ensures Runs.IsRun(s, states + [Do(s, states[|ops|], op)], ops + [op])
  {
    var more, all := states + [Do(s, states[|ops|], op)], ops + [op];
    forall i | 0 <= i < |all|
      ensures Ready(s, more[i]) && Runs.Enabled(s, more[i], all[i]) && more[i + 1] == Do(s, more[i], all[i])
    {
      if i < |ops| { assert more[i] == states[i] && more[i + 1] == states[i + 1] && all[i] == ops[i]; }
    }
  }

  predicate KeepsOpen<T>(step: Step<T>) {
    !(step.Seal? || step.End? || step.Clear?)
  }

  /** Every stretch of an interleaving is a pipeline run, which leaves an utterance open if no
      step of the stretch closes it. */
  lemma {:induction false} StretchIsARun<T>(
      s: Setup<T>, zero: T, states: seq<System<T>>, steps: seq<Step<T>>, i: nat, j: nat)
      returns (pipelines: seq<Pipeline<T>>, ops: seq<Op<T>>)
    requires SetupOk(s) && IsRun(s, zero, states, steps) && Initial(s.config.native, states[0])
    requires i <= j < |states|
    ensures Runs.IsRun(s, pipelines, ops)
    ensures pipelines[0] == PipelineOf(states[i]) && pipelines[|ops|] == PipelineOf(states[j])
    ensures (forall k :: i <= k < j ==> KeepsOpen(steps[k])) ==> forall op <- ops :: Leaves(op)
    decreases j - i
  {
    if i == j {
      pipelines, ops := [PipelineOf(states[i])], [];
    } else {
      pipelines, ops := StretchIsARun(s, zero, states, steps, i, j - 1);
      RunIsGood(s, zero, states, steps, j - 1);
      pipelines, ops := OneStepOn(s, zero, states[j - 1], steps[j - 1], pipelines, ops);
    }
  }

  lemma OneStepOn<T>(
      s: Setup<T>, zero: T, x: System<T>, step: Step<T>, pipelines: seq<Pipeline<T>>, ops: seq<Op<T>>)
      returns (more: seq<Pipeline<T>>, all: seq<Op<T>>)
    requires Good(s, x) && Enabled(s.config.native, x, step) && Allowed(s, x, step)
    requires Runs.IsRun(s, pipelines, ops) && pipelines[|ops|] == PipelineOf(x)
    ensures Runs.IsRun(s, more, all)
    ensures more[0] == pipelines[0] && more[|all|] == PipelineOf(Take(s, zero, x, step))
    ensures (forall op <- ops :: Leaves(op)) && KeepsOpen(step) ==> forall op <- all :: Leaves(op)
  {
    StepAgrees(s, zero, x, step);
    var op := Completes(s.config.native, x, step);
    if op.Some? {
      RunExtends(s, pipelines, ops, op.value);
      more, all := pipelines + [PipelineOf(Take(s, zero, x, step))], ops + [op.value];
    } else {
      more, all := pipelines, ops;
    }
  }

  /** Every interleaving is a pipeline run from the start, and the blocks released are those
      enqueued, in order. */
  lemma InterleavingIsARun<T>(s: Setup<T>, zero: T, states: seq<System<T>>, steps: seq<Step<T>>, i: nat)
      returns (pipelines: seq<Pipeline<T>>, ops: seq<Op<T>>)
    requires SetupOk(s) && IsRun(s, zero, states, steps) && Initial(s.config.native, states[0]) && i < |states|
    ensures Runs.IsRun(s, pipelines, ops)
    ensures pipelines[0] == Start() && pipelines[|ops|] == PipelineOf(states[i])
    ensures states[i].ring.consumed == Taken(PipelineOf(states[i])) <= |states[i].ring.capture.enqueued|
    ensures states[i].ring.popped == states[i].ring.capture.enqueued[..states[i].ring.consumed]
  {
    StartIsGood(s, states[0]);
    RunIsGood(s, zero, states, steps, i);
    pipelines, ops := StretchIsARun(s, zero, states, steps, 0, i);
  }

  // ---- utterances under every interleaving ----

  /** The worker opens an utterance at state `i`, starts finishing it at state `k`, nothing
      closes it in between, and at state `j` a load has found the ring empty and another has
      given `seen` overflows. */
  ghost predicate Utterance<T>(
      native: Native, states: seq<System<T>>, steps: seq<Step<T>>, i: nat, k: nat, j: nat, seen: nat)
    requires |states| == |steps| + 1
  {
    && i < k < j <= |steps|
    && steps[i].Begin? && !states[i].worker.active && steps[k] == Finish
    && (forall m :: i < m < j ==> KeepsOpen(steps[m]))
    && Enabled(native, states[j], Step.Seal(seen))
  }

  lemma UtteranceIsASession<T>(
      s: Setup<T>, zero: T, states: seq<System<T>>, steps: seq<Step<T>>, i: nat, k: nat, j: nat, seen: nat)
      returns (pipelines: seq<Pipeline<T>>, ops: seq<Op<T>>)
    requires SetupOk(s) && IsRun(s, zero, states, steps) && Initial(s.config.native, states[0])
    requires Utterance(s.config.native, states, steps, i, k, j, seen)
    ensures Good(s, states[i]) && Good(s, states[j])
    ensures var a := PipelineOf(states[i]);
      && !a.worker.active
      && Runs.IsRun(s, pipelines, ops) && pipelines[0] == Do(s, a, BeginUtterance)
      && pipelines[|ops|] == PipelineOf(states[j]) && forall op <- ops :: Leaves(op)
  {
    RunIsGood(s, zero, states, steps, i);
    RunIsGood(s, zero, states, steps, j);
    StepAgrees(s, zero, states[i], steps[i]);
    pipelines, ops := StretchIsARun(s, zero, states, steps, i + 1, j);
  }

  lemma Opened<T>(
      s: Setup<T>, zero: T, states: seq<System<T>>, steps: seq<Step<T>>, i: nat, k: nat, j: nat, seen: nat)
    requires SetupOk(s) && IsRun(s, zero, states, steps) && Initial(s.config.native, states[0])
    requires Utterance(s.config.native, states, steps, i, k, j, seen)
    ensures InSession(s, PipelineOf(states[i]), PipelineOf(states[j]))
  {
    var pipelines, ops := UtteranceIsASession(s, zero, states, steps, i, k, j, seen);
    SessionRun(s, PipelineOf(states[i]), pipelines, ops, |ops|);
  }

  /** While nothing closes an utterance, it stays open and keeps the count begin read. */
  lemma {:induction false} MarkStays<T>(
      s: Setup<T>, zero: T, states: seq<System<T>>, steps: seq<Step<T>>, i: nat, j: nat)
    requires SetupOk(s) && IsRun(s, zero, states, steps) && Initial(s.config.native, states[0])
    requires i < j <= |steps| && steps[i].Begin? && !states[i].worker.active
    requires forall m :: i < m < j ==> KeepsOpen(steps[m])
    ensures states[j].worker.active && states[j].worker.overflowsAtStart == steps[i].seen
    decreases j
  {
    RunIsGood(s, zero, states, steps, j - 1);
    if i + 1 < j {
      MarkStays(s, zero, states, steps, i, j - 1);
      OpenStep(s, zero, states[j - 1], steps[j - 1]);
    }
  }

  lemma OpenStep<T>(s: Setup<T>, zero: T, x: System<T>, step: Step<T>)
    requires Good(s, x) && Enabled(s.config.native, x, step) && Allowed(s, x, step)
    requires x.worker.active && KeepsOpen(step)
    ensures var y := Take(s, zero, x, step);
      && y.worker.active && y.worker.overflowsAtStart == x.worker.overflowsAtStart
      && (x.finishing.Some? ==> y.finishing == x.finishing)
  {
    if step == Shared(Ring.Release) {
      ReleaseAgrees(s, zero, x);
      TwinsProcess(s, x.worker, x.twin, Queue(PipelineOf(x))[0]);
    } else if step.Shared? {
      SharedCounts(s, zero, x, step.action);
    }
  }

  lemma FinishMarks<T>(s: Setup<T>, zero: T, x: System<T>)
    requires Good(s, x) && Enabled(s.config.native, x, Step.Finish) && Allowed(s, x, Step.Finish) && x.worker.active
    ensures Take(s, zero, x, Step.Finish).finishing == Some(x.ring.consumed)
  {
  }

  /** Finishing remembers how many blocks had been released when it was asked for. */
  lemma FinishingStays<T>(
      s: Setup<T>, zero: T, states: seq<System<T>>, steps: seq<Step<T>>, i: nat, k: nat, j: nat)
    requires SetupOk(s) && IsRun(s, zero, states, steps) && Initial(s.config.native, states[0])
    requires i < k < j <= |steps| && steps[i].Begin? && !states[i].worker.active && steps[k] == Finish
    requires forall m :: i < m < j ==> KeepsOpen(steps[m])
    ensures states[j].finishing == Some(states[k].ring.consumed)
  {
    var mark := Some(states[k].ring.consumed);
    MarkStays(s, zero, states, steps, i, k);
    RunIsGood(s, zero, states, steps, k);
    FinishMarks(s, zero, states[k]);
    for m := k + 1 to j
      invariant states[m].finishing == mark
    {
      MarkStays(s, zero, states, steps, i, m);
      RunIsGood(s, zero, states, steps, m);
      OpenStep(s, zero, states[m], steps[m]);
    }
  }

  /** What a sealed utterance holds and reports under every interleaving: the pre-roll held at
      begin and what the blocks released since made of it, up to its limit; each issue exactly
      when it happened; and as drained the blocks released since finishing was asked for. An
      overflow is reported exactly when the second load exceeds the first: surely when one was
      counted before a block published that the worker has seen, and only when one was counted. */
  lemma InterleavedUtterance<T>(
      s: Setup<T>, zero: T, states: seq<System<T>>, steps: seq<Step<T>>, i: nat, k: nat, j: nat, seen: nat)
    requires SetupOk(s) && IsRun(s, zero, states, steps) && Initial(s.config.native, states[0])
    requires Utterance(s.config.native, states, steps, i, k, j, seen)
    ensures var a, p := states[i], states[j];
      a.ring.consumed <= |a.ring.capture.enqueued|
      && a.ring.consumed <= p.ring.consumed <= |p.ring.capture.enqueued|
      && var blocks := p.ring.capture.enqueued[a.ring.consumed..p.ring.consumed];
      var produced := Produced(s, a.ring.capture.enqueued[..a.ring.consumed], blocks);
      var rejected := Rejected(s, a.worker, |produced|);
      var (w, done) := Sealed(p.worker, Drained(p), seen);
      && p.worker.active
      && w.utterance == FirstOf(s.plan.utteranceLimit, a.worker.preRoll + produced)
      && done.framesBuffered == |w.utterance|
      && done.drainedBlocks == p.ring.consumed - states[k].ring.consumed
      && (CallbackQueueOverflow in done.issues <==> seen > steps[i].seen)
      && (Floor(p) > Overflowed(a) ==> CallbackQueueOverflow in done.issues)
      && (CallbackQueueOverflow in done.issues ==> Overflowed(p) > Floor(a))
      && (Discontinuity in done.issues <==> AnyFlagged(blocks))
      && (forall l <- {DurationLimit, ByteLimit, BufferCapacity} ::
            l in done.issues <==> rejected > 0 && l in s.plan.limitIssues)
      && |w.utterance| + rejected == |a.worker.preRoll| + |produced|
  {
    Opened(s, zero, states, steps, i, k, j, seen);
    MarkStays(s, zero, states, steps, i, j);
    FinishingStays(s, zero, states, steps, i, k, j);
    RunIsGood(s, zero, states, steps, i);
    RunIsGood(s, zero, states, steps, j);
    SealedReport(s, states[i], states[j], seen);
  }

  /** The report from the two moments alone. */
  lemma SealedReport<T>(s: Setup<T>, x: System<T>, y: System<T>, seen: nat)
    requires Good(s, x) && Good(s, y) && InSession(s, PipelineOf(x), PipelineOf(y))
    requires y.worker.active
    ensures x.ring.consumed <= |x.ring.capture.enqueued|
    ensures x.ring.consumed <= y.ring.consumed <= |y.ring.capture.enqueued|
    ensures var blocks := y.ring.capture.enqueued[x.ring.consumed..y.ring.consumed];
      var produced := Produced(s, x.ring.capture.enqueued[..x.ring.consumed], blocks);
      var rejected := Rejected(s, x.worker, |produced|);
      var (w, done) := Sealed(y.worker, Drained(y), seen);
      && w.utterance == FirstOf(s.plan.utteranceLimit, x.worker.preRoll + produced)
      && done.framesBuffered == |w.utterance| && done.drainedBlocks == Drained(y)
      && (CallbackQueueOverflow in done.issues <==> seen > y.worker.overflowsAtStart)
      && (Discontinuity in done.issues <==> AnyFlagged(blocks))
      && (forall l <- {DurationLimit, ByteLimit, BufferCapacity} ::
            l in done.issues <==> rejected > 0 && l in s.plan.limitIssues)
      && |w.utterance| + rejected == |x.worker.preRoll| + |produced|
  {
    SealedAnywhere(s, PipelineOf(x), PipelineOf(y), Drained(y));
    SealedTwins(y.worker, y.twin, Drained(y), seen, Overflowed(y));
    NotMarkedBefore(s, PipelineOf(x), PipelineOf(y));
  }

  /** A seal's two verdicts differ in the overflow alone. */
  lemma SealedTwins<T>(w: Worker<T>, twin: Worker<T>, drained: nat, seen: nat, now: nat)
    requires Twins(w, twin) && w.active
    ensures var (d, done) := Sealed(w, drained, seen);
      var (e, current) := Sealed(twin, drained, now);
      && d.utterance == e.utterance && done.framesBuffered == current.framesBuffered
      && done.drainedBlocks == drained
      && (forall l: Issue :: l != CallbackQueueOverflow ==> (l in done.issues <==> l in current.issues))
      && (CallbackQueueOverflow in done.issues <==>
            CallbackQueueOverflow in w.issues || seen > w.overflowsAtStart)
  {
  }

  /** Only a seal reports an overflow. */
  lemma NotMarkedBefore<T>(s: Setup<T>, a: Pipeline<T>, p: Pipeline<T>)
    requires InSession(s, a, p)
    ensures CallbackQueueOverflow !in p.worker.issues
  {
  }

  /** Lossless when clean, under every interleaving: if the load that found the ring empty was
      up to date and no callback was under way, an utterance sealed without issues is the
      pre-roll and the resampling of every native frame queued at begin or received since if
      and only if no overflow was counted meanwhile, as when the seal's load was up to date. */
  lemma InterleavedLossless<T>(
      s: Setup<T>, zero: T, states: seq<System<T>>, steps: seq<Step<T>>, i: nat, k: nat, j: nat, seen: nat)
    requires SetupOk(s) && IsRun(s, zero, states, steps) && Initial(s.config.native, states[0])
    requires Utterance(s.config.native, states, steps, i, k, j, seen)
    requires states[j].ring.consumed == states[j].ring.published
    requires states[j].ring.capture.producer.flight.None?
    ensures InSession(s, PipelineOf(states[i]), PipelineOf(states[j]))
    ensures var (w, done) := Sealed(states[j].worker, Drained(states[j]), seen);
      done.issues == {} ==>
        && (Lossless(s, PipelineOf(states[i]), PipelineOf(states[j]), w.utterance) <==>
            Overflowed(states[j]) == Overflowed(states[i]))
        && (seen == Overflowed(states[j]) ==> Overflowed(states[j]) == Overflowed(states[i]))
  {
    UtteranceWhole(s, zero, states, steps, i, k, j, seen);
    MarkStays(s, zero, states, steps, i, j);
    LosslessVerdict(s, PipelineOf(states[i]), PipelineOf(states[j]), states[j].worker, Drained(states[j]), seen);
  }

  /** The verdict of the pipeline's own load, and every overflow since begin dropped a frame. */
  ghost predicate Whole<T>(s: Setup<T>, a: Pipeline<T>, p: Pipeline<T>) {
    && InSession(s, a, p)
    && Overflows(a) <= Overflows(p)
    && Overflows(p) - Overflows(a)
       <= p.capture.producer.counters.framesDropped - a.capture.producer.counters.framesDropped
    && var r := WorkerSpec.Finish(s, p.worker, Queue(p), Overflows(p));
    r.Ok? && (r.value.1.issues == {} ==> Lossless(s, a, p, r.value.0.utterance))
  }

  lemma SessionWhole<T>(s: Setup<T>, a: Pipeline<T>, pipelines: seq<Pipeline<T>>, ops: seq<Op<T>>)
    requires Runs.IsRun(s, pipelines, ops) && Inv(s, a) && !a.worker.active
    requires pipelines[0] == Do(s, a, BeginUtterance) && forall op <- ops :: Leaves(op)
    requires pipelines[|ops|].capture.producer.flight.None?
    ensures Whole(s, a, pipelines[|ops|])
  {
    LosslessWhenClean(s, a, pipelines, ops);
    DropsSince(s, a, pipelines, ops);
  }

  lemma DropsSince<T>(s: Setup<T>, a: Pipeline<T>, pipelines: seq<Pipeline<T>>, ops: seq<Op<T>>)
    requires Runs.IsRun(s, pipelines, ops) && Ready(s, a) && pipelines[0] == Do(s, a, BeginUtterance)
    ensures var p := pipelines[|ops|];
      0 <= Overflows(p) - Overflows(a)
        <= p.capture.producer.counters.framesDropped - a.capture.producer.counters.framesDropped
  {
    OverflowsDrop(s, pipelines, ops, |ops|);
  }

  lemma UtteranceWhole<T>(
      s: Setup<T>, zero: T, states: seq<System<T>>, steps: seq<Step<T>>, i: nat, k: nat, j: nat, seen: nat)
    requires SetupOk(s) && IsRun(s, zero, states, steps) && Initial(s.config.native, states[0])
    requires Utterance(s.config.native, states, steps, i, k, j, seen)
    requires states[j].ring.capture.producer.flight.None?
    ensures Good(s, states[j]) && Whole(s, PipelineOf(states[i]), PipelineOf(states[j]))
  {
    var pipelines, ops := UtteranceIsASession(s, zero, states, steps, i, k, j, seen);
    SessionWhole(s, PipelineOf(states[i]), pipelines, ops);
  }

  lemma LosslessVerdict<T>(s: Setup<T>, a: Pipeline<T>, p: Pipeline<T>, w: Worker<T>, drained: nat, seen: nat)
    requires Whole(s, a, p) && Twins(w, p.worker) && w.active && Queue(p) == []
    requires w.overflowsAtStart <= Overflows(a)
    ensures var (d, done) := Sealed(w, drained, seen);
      done.issues == {} ==>
        && (Lossless(s, a, p, d.utterance) <==> Overflows(p) == Overflows(a))
        && (seen == Overflows(p) ==> Overflows(p) == Overflows(a))
  {
    CleanTwin(s, a, p, seen, w, drained);
  }

  /** If the worker's own verdict is clean and no overflow was counted, so is its twin's. */
  lemma CleanTwin<T>(s: Setup<T>, a: Pipeline<T>, p: Pipeline<T>, seen: nat, w: Worker<T>, drained: nat)
    requires InSession(s, a, p) && Twins(w, p.worker) && w.active && Queue(p) == []
    ensures Sealed(w, drained, seen).1.issues == {} && Overflows(p) == Overflows(a) ==>
      var r := WorkerSpec.Finish(s, p.worker, Queue(p), Overflows(p));
      r.Ok? && r.value.1.issues == {} && r.value.0.utterance == w.utterance
  {
  }

  // ---- what else holds under every interleaving ----

  /** Where anything ever raised is now, at any moment of any interleaving. */
  lemma InterleavedFlags<T>(
      s: Setup<T>, zero: T, states: seq<System<T>>, steps: seq<Step<T>>, i: nat, r: Raise)
    requires SetupOk(s) && IsRun(s, zero, states, steps) && Initial(s.config.native, states[0]) && i < |states|
    requires r in states[i].ring.capture.raised && r.flags != {}
    ensures Inv(s, PipelineOf(states[i]))
    ensures var x := states[i];
      if r.at >= |x.ring.capture.enqueued| then r.flags <= Laws.Owed(x.ring.capture.producer)
      else if r.at >= x.ring.consumed then r.flags <= x.ring.capture.enqueued[r.at].meta.discontinuity
      else
        var k := |EmittedOf(s, x.ring.capture.enqueued[..r.at])|;
        k < |EmittedBy(s, PipelineOf(x))| && r.flags <= EmittedBy(s, PipelineOf(x))[k].meta.discontinuity
  {
    RunIsGood(s, zero, states, steps, i);
    FlagIsSomewhere(s, states[i], r);
  }

  lemma FlagIsSomewhere<T>(s: Setup<T>, x: System<T>, r: Raise)
    requires Inv(s, PipelineOf(x)) && x.ring.consumed == Taken(PipelineOf(x))
    requires r in x.ring.capture.raised && r.flags != {}
    ensures
      if r.at >= |x.ring.capture.enqueued| then r.flags <= Laws.Owed(x.ring.capture.producer)
      else if r.at >= x.ring.consumed then r.flags <= x.ring.capture.enqueued[r.at].meta.discontinuity
      else
        var k := |EmittedOf(s, x.ring.capture.enqueued[..r.at])|;
        k < |EmittedBy(s, PipelineOf(x))| && r.flags <= EmittedBy(s, PipelineOf(x))[k].meta.discontinuity
  {
    EveryFlagIsSomewhere(s, PipelineOf(x), r);
    NoFlagLost(s.config.native, x.ring.capture, r);
  }

  /** The samples offered to an utterance are numbered consecutively, under every interleaving. */
  lemma InterleavedNumbering<T>(
      s: Setup<T>, zero: T, states: seq<System<T>>, steps: seq<Step<T>>, i: nat, k: nat, j: nat, seen: nat)
    requires SetupOk(s) && IsRun(s, zero, states, steps) && Initial(s.config.native, states[0])
    requires Utterance(s.config.native, states, steps, i, k, j, seen)
    ensures InSession(s, PipelineOf(states[i]), PipelineOf(states[j]))
    ensures var a, p := PipelineOf(states[i]), PipelineOf(states[j]);
      var stored := a.worker.preRoll + ProducedSince(s, a, p);
      && |a.worker.preRoll| <= |EmittedBy(s, a)|
      && forall m :: 0 <= m < |stored| ==>
           stored[m].meta.outputIndex == Sat(|EmittedBy(s, a)| - |a.worker.preRoll| + m)
  {
    Opened(s, zero, states, steps, i, k, j, seen);
    UtteranceNumbering(s, PipelineOf(states[i]), PipelineOf(states[j]));
  }

  /** The frames received are all released, none was ever dropped and no gap reported. */
  ghost predicate Settled<T>(x: System<T>) {
    && NothingRaised(x.ring.capture) && x.ring.capture.producer.flight.None?
    && x.ring.consumed == |x.ring.capture.enqueued|
  }

  /** Two systems that differ in block size, ring size, buffers and interleaving, fed the same
      frames in different pieces, produce the same samples. */
  lemma InterleavingDoesNotMatter<T>(
      s: Setup<T>, sZero: T, sStates: seq<System<T>>, sSteps: seq<Step<T>>,
      t: Setup<T>, tZero: T, tStates: seq<System<T>>, tSteps: seq<Step<T>>)
    requires SetupOk(s) && IsRun(s, sZero, sStates, sSteps) && Initial(s.config.native, sStates[0])
    requires SetupOk(t) && IsRun(t, tZero, tStates, tSteps) && Initial(t.config.native, tStates[0])
    requires s.lerp == t.lerp && s.average == t.average && s.config.policy == t.config.policy
    requires s.config.native.channels == t.config.native.channels && RatesOf(s.config) == RatesOf(t.config)
    requires Settled(sStates[|sSteps|]) && Settled(tStates[|tSteps|])
    requires sStates[|sSteps|].ring.capture.offered == tStates[|tSteps|].ring.capture.offered
    ensures var p, q := PipelineOf(sStates[|sSteps|]), PipelineOf(tStates[|tSteps|]);
      && Inv(s, p) && Inv(t, q)
      && Samples(EmittedBy(s, p)) == Samples(EmittedBy(t, q))
  {
    RunIsGood(s, sZero, sStates, sSteps, |sSteps|);
    RunIsGood(t, tZero, tStates, tSteps, |tSteps|);
    var ps, pOps := InterleavingIsARun(s, sZero, sStates, sSteps, |sSteps|);
    var qs, qOps := InterleavingIsARun(t, tZero, tStates, tSteps, |tSteps|);
    ChunksDoNotMatter(s, t, ps, pOps, qs, qOps);
  }
}
