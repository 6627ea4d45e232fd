/** Callback, ring and worker together: what holds over whole runs, in terms of
    the frames the device delivered and the samples the worker produced.

    A run is a list of operations in any order. Blocks of one callback may be
    published between operations of the worker, sealing an utterance included. */
module Pipeline {
  import opened Prelude
  import opened Callback
  import opened CallbackLaws
  import opened Format
  import opened Resampler
  import opened Buffers
  import opened WorkerSpec

  datatype Pipeline<T> = Pipeline(capture: Capture<T>, worker: Worker<T>)

  datatype Op<T> =
    | Arrive(call: Call<T>) | PublishOne | DropRest
    | ProcessNext | BeginUtterance | FinishUtterance | EndUtterance | ClearUtterance
    | Seal(drained: nat) // what is left of finishing once the queue was found empty

  function Start<T>(): Pipeline<T> {
    Pipeline(InitialCapture(), InitialWorker())
  }

  function Taken<T>(p: Pipeline<T>): nat {
    p.worker.counters.blocksProcessed
  }

  function Queue<T>(p: Pipeline<T>): seq<Block<T>>
    requires Taken(p) <= |p.capture.enqueued|
  {
    p.capture.enqueued[Taken(p)..]
  }

  predicate Ready<T>(s: Setup<T>, p: Pipeline<T>) {
    SetupOk(s) && Bounded(s, p.worker) && Taken(p) <= |p.capture.enqueued|
  }

  predicate Enabled<T>(s: Setup<T>, p: Pipeline<T>, op: Op<T>)
    requires Ready(s, p)
  {
    var flight := p.capture.producer.flight;
    match op
    case Arrive(_) => flight.None?
    case PublishOne =>
      flight.Some? && FlightFits(s.config.native, flight.value) && |Queue(p)| < s.config.native.slots
    case DropRest => flight.Some? && FlightFits(s.config.native, flight.value)
    case _ => true
  }

  function Do<T>(s: Setup<T>, p: Pipeline<T>, op: Op<T>): Pipeline<T>
    requires Ready(s, p) && Enabled(s, p, op)
  {
    var native, overflows := s.config.native, p.capture.producer.counters.overflows;
    match op
    case Arrive(call) => p.(capture := Enter(native, p.capture, call))
    case PublishOne => p.(capture := Publish(native, p.capture))
    case DropRest => p.(capture := Overflow(native, p.capture))
    case ProcessNext => if Queue(p) == [] then p else p.(worker := Process(s, p.worker, Queue(p)[0]))
    case BeginUtterance =>
      var r := Begin(p.worker, overflows);
      if r.Ok? then p.(worker := r.value) else p
    case FinishUtterance =>
      var r := Finish(s, p.worker, Queue(p), overflows);
      if r.Ok? then p.(worker := r.value.0) else p
    case EndUtterance => p.(worker := End(p.worker))
    case ClearUtterance => p.(worker := Clear(p.worker))
    case Seal(drained) =>
      if p.worker.active then p.(worker := Sealed(p.worker, drained, overflows).0) else p
  }

  // ---- what the worker's output is a function of ----

  /** The mono signal since the last flagged block. */
  function RunOf<T>(s: Setup<T>, blocks: seq<Block<T>>): seq<T>
    requires SetupOk(s)
  {
    if blocks == [] then []
    else
      var last := blocks[|blocks| - 1];
      (if last.meta.discontinuity != {} then [] else RunOf(s, blocks[..|blocks| - 1])) + MonoOf(s, last.samples)
  }

  /** Everything a worker that processed `blocks` has ever produced. */
  function EmittedOf<T>(s: Setup<T>, blocks: seq<Block<T>>): seq<Timed<T>>
    requires SetupOk(s)
  {
    if blocks == [] then []
    else
      var init, last := blocks[..|blocks| - 1], blocks[|blocks| - 1];
      EmittedOf(s, init) + LastEmission(s, init, |EmittedOf(s, init)|, last)
  }

  /** What block `b` adds after `init`, which produced `before` samples. */
  function LastEmission<T>(s: Setup<T>, init: seq<Block<T>>, before: nat, b: Block<T>): seq<Timed<T>>
    requires SetupOk(s)
  {
    var run := if b.meta.discontinuity != {} then [] else RunOf(s, init);
    Stamped(Added(RatesOf(s.config), s.lerp, run, MonoOf(s, b.samples)),
      b.meta, Sat(before), s.config.targetRate)
  }

  function EmittedBy<T>(s: Setup<T>, p: Pipeline<T>): seq<Timed<T>>
    requires Ready(s, p)
  {
    EmittedOf(s, p.capture.enqueued[..Taken(p)])
  }

  ghost predicate WorkerInv<T>(s: Setup<T>, w: Worker<T>, blocks: seq<Block<T>>)
    requires SetupOk(s)
  {
    var emitted := EmittedOf(s, blocks);
    && w.counters.blocksProcessed == |blocks|
    && w.run == RunOf(s, blocks)
    && w.nextIndex == Sat(|emitted|)
    && w.preRoll == LastOf(s.plan.preRollFrames, emitted)
    && |w.utterance| <= s.plan.utteranceLimit
    && w.counters.resampledFrames == |emitted|
    && w.counters.preRollOverwritten == |emitted| - |w.preRoll|
    && w.counters.nativeFrames == SumFrames(blocks)
    && w.counters.discontinuousBlocks == w.counters.resets == CountFlagged(blocks)
  }

  function CountFlagged<T>(blocks: seq<Block<T>>): nat {
    if blocks == [] then 0
    else
      CountFlagged(blocks[..|blocks| - 1]) + if blocks[|blocks| - 1].meta.discontinuity != {} then 1 else 0
  }

  ghost predicate Inv<T>(s: Setup<T>, p: Pipeline<T>) {
    && Ready(s, p)
    && CaptureInv(s.config.native, p.capture)
    && WorkerInv(s, p.worker, p.capture.enqueued[..Taken(p)])
  }

  lemma StartInv<T>(s: Setup<T>)
    requires SetupOk(s)
    ensures Inv(s, Start())
  {
  }

  /** What one block does, field by field. */
  lemma ProcessEffect<T>(s: Setup<T>, w: Worker<T>, b: Block<T>)
    requires SetupOk(s) && Bounded(s, w)
    ensures var d, timed := Process(s, w, b), TimedOf(s, w, b);
      && Bounded(s, d)
      && d.counters.blocksProcessed == w.counters.blocksProcessed + 1
      && d.counters.nativeFrames == w.counters.nativeFrames + b.frames
      && d.counters.resampledFrames == w.counters.resampledFrames + |timed|
      && d.counters.preRollOverwritten == w.counters.preRollOverwritten + |w.preRoll| + |timed| - |d.preRoll|
      && d.run == RunBefore(w, b) + MonoOf(s, b.samples)
      && d.nextIndex == Sat(w.nextIndex + |timed|)
      && d.preRoll == LastOf(s.plan.preRollFrames, w.preRoll + timed)
      && d.active == w.active && d.overflowsAtStart == w.overflowsAtStart
      && d.counters.utterancesStarted == w.counters.utterancesStarted
      && d.counters.finalDrain == w.counters.finalDrain
    ensures var d := Process(s, w, b);
      var flagged := if b.meta.discontinuity != {} then 1 else 0;
      && d.counters.discontinuousBlocks == w.counters.discontinuousBlocks + flagged
      && d.counters.resets == w.counters.resets + flagged
  {
  }

  /** What one block does to the utterance being recorded. */
  lemma ProcessActive<T>(s: Setup<T>, w: Worker<T>, b: Block<T>)
    requires SetupOk(s) && Bounded(s, w) && w.active
    ensures var d, timed := Process(s, w, b), TimedOf(s, w, b);
      var rejected := |w.utterance| + |timed| - |d.utterance|;
      var flags := if b.meta.discontinuity == {} then {} else {Discontinuity};
      && d.utterance == FirstOf(s.plan.utteranceLimit, w.utterance + timed)
      && d.issues == w.issues + flags + (if rejected > 0 then s.plan.limitIssues else {})
      && d.counters.buffered == w.counters.buffered + |d.utterance| - |w.utterance|
      && d.counters.rejected == w.counters.rejected + rejected
      && d.counters.limitEvents == w.counters.limitEvents + (if rejected > 0 && w.issues + flags == {} then 1 else 0)
  {
  }

  lemma ProcessKeeps<T>(s: Setup<T>, w: Worker<T>, blocks: seq<Block<T>>, b: Block<T>)
    requires SetupOk(s) && Bounded(s, w) && WorkerInv(s, w, blocks)
    ensures WorkerInv(s, Process(s, w, b), blocks + [b])
    ensures EmittedOf(s, blocks + [b]) == EmittedOf(s, blocks) + TimedOf(s, w, b)
  {
    assert (blocks + [b])[..|blocks|] == blocks;
    var emitted, timed := EmittedOf(s, blocks), TimedOf(s, w, b);
    ProcessEffect(s, w, b);
    assert TimedOf(s, w, b) == LastEmission(s, blocks, |emitted|, b);
    LastOfAppend(s.plan.preRollFrames, emitted, timed);
  }

  lemma {:induction false} DrainKeeps<T>(s: Setup<T>, w: Worker<T>, blocks: seq<Block<T>>, from: nat)
    requires SetupOk(s) && Bounded(s, w) && from <= |blocks| && WorkerInv(s, w, blocks[..from])
    ensures WorkerInv(s, Drain(s, w, blocks[from..]), blocks)
    decreases |blocks| - from
  {
    if from == |blocks| {
      assert blocks[..from] == blocks;
    } else {
      var b, next := blocks[from], Process(s, w, blocks[from]);
      ProcessKeeps(s, w, blocks[..from], b);
      assert blocks[..from] + [b] == blocks[..from + 1];
      ProcessEffect(s, w, b);
      DrainKeeps(s, next, blocks, from + 1);
      assert blocks[from..][1..] == blocks[from + 1..];
    }
  }

  lemma CaptureStepKeeps<T>(s: Setup<T>, p: Pipeline<T>, op: Op<T>)
    requires Inv(s, p) && Enabled(s, p, op)
    requires op.Arrive? || op.PublishOne? || op.DropRest?
    ensures Inv(s, Do(s, p, op))
  {
    match op {
      case Arrive(call) => EnterKeeps(s.config.native, p.capture, call);
      case PublishOne => PublishKeeps(s.config.native, p.capture);
      case DropRest => OverflowKeeps(s.config.native, p.capture);
    }
    assert Do(s, p, op).capture.enqueued[..Taken(p)] == p.capture.enqueued[..Taken(p)];
  }

  lemma NewWorkerKeeps<T>(s: Setup<T>, p: Pipeline<T>, w: Worker<T>, n: nat)
    requires Inv(s, p) && Bounded(s, w) && n <= |p.capture.enqueued| && WorkerInv(s, w, p.capture.enqueued[..n])
    ensures Inv(s, p.(worker := w))
  {
    assert w.counters.blocksProcessed == n;
  }

  lemma ProcessStepKeeps<T>(s: Setup<T>, p: Pipeline<T>)
    requires Inv(s, p) && Queue(p) != []
    ensures Inv(s, p.(worker := Process(s, p.worker, Queue(p)[0])))
  {
    var n, b := Taken(p), Queue(p)[0];
    ProcessKeeps(s, p.worker, p.capture.enqueued[..n], b);
    ProcessEffect(s, p.worker, b);
    assert p.capture.enqueued[..n] + [b] == p.capture.enqueued[..n + 1];
    NewWorkerKeeps(s, p, Process(s, p.worker, b), n + 1);
  }

  lemma FinishStepKeeps<T>(s: Setup<T>, p: Pipeline<T>, overflows: nat)
    requires Inv(s, p)
    ensures Inv(s, p.(worker := Sealed(Drain(s, p.worker, Queue(p)), |Queue(p)|, overflows).0))
  {
    DrainKeeps(s, p.worker, p.capture.enqueued, Taken(p));
    assert p.capture.enqueued[..|p.capture.enqueued|] == p.capture.enqueued;
  }

  lemma BeginStepKeeps<T>(s: Setup<T>, p: Pipeline<T>, overflows: nat)
    requires Inv(s, p)
    ensures Inv(s, p.(worker := Begun(p.worker, overflows)))
    ensures Inv(s, p.(worker := End(p.worker)))
    ensures Inv(s, p.(worker := Clear(p.worker)))
  {
  }

  lemma SealStepKeeps<T>(s: Setup<T>, p: Pipeline<T>, drained: nat, overflows: nat)
    requires Inv(s, p)
    ensures Inv(s, p.(worker := Sealed(p.worker, drained, overflows).0))
  {
  }

  lemma WorkerStepKeeps<T>(s: Setup<T>, p: Pipeline<T>, op: Op<T>)
    requires Inv(s, p) && Enabled(s, p, op)
    requires !(op.Arrive? || op.PublishOne? || op.DropRest?)
    ensures Inv(s, Do(s, p, op))
  {
    var overflows := p.capture.producer.counters.overflows;
    if op.ProcessNext? {
      if Queue(p) != [] { ProcessStepKeeps(s, p); }
    } else if op.FinishUtterance? {
      FinishStepKeeps(s, p, overflows);
    } else if op.Seal? {
      SealStepKeeps(s, p, op.drained, overflows);
    } else {
      BeginStepKeeps(s, p, overflows);
    }
  }

  lemma StepKeeps<T>(s: Setup<T>, p: Pipeline<T>, op: Op<T>)
    requires Inv(s, p) && Enabled(s, p, op)
    ensures Inv(s, Do(s, p, op))
  {
    if op.Arrive? || op.PublishOne? || op.DropRest? {
      CaptureStepKeeps(s, p, op);
    } else {
      WorkerStepKeeps(s, p, op);
    }
  }

  // ---- runs ----

  ghost predicate IsRun<T>(s: Setup<T>, states: seq<Pipeline<T>>, ops: seq<Op<T>>) {
    && |states| == |ops| + 1
    && forall i :: 0 <= i < |ops| ==>
         Ready(s, states[i]) && Enabled(s, states[i], ops[i]) && states[i + 1] == Do(s, states[i], ops[i])
  }

  lemma {:induction false} RunKeeps<T>(s: Setup<T>, states: seq<Pipeline<T>>, ops: seq<Op<T>>, i: nat)
    requires IsRun(s, states, ops) && i < |states| && Inv(s, states[0])
    ensures Inv(s, states[i])
  {
    if i > 0 {
      RunKeeps(s, states, ops, i - 1);
      StepKeeps(s, states[i - 1], ops[i - 1]);
    }
  }

  /** The pre-roll is the last C samples ever produced, in order; samples are numbered
      consecutively; the overwritten count is exact; every enqueued block is either
      processed or still queued, and every received frame is enqueued, dropped or in flight. */
  lemma WholeRun<T>(s: Setup<T>, states: seq<Pipeline<T>>, ops: seq<Op<T>>, i: nat)
    requires SetupOk(s) && IsRun(s, states, ops) && states[0] == Start() && i < |states|
    ensures var p := states[i];
      && Inv(s, p)
      && p.worker.preRoll == LastOf(s.plan.preRollFrames, EmittedBy(s, p))
      && p.worker.counters.preRollOverwritten + |p.worker.preRoll| == |EmittedBy(s, p)|
      && (forall k :: 0 <= k < |EmittedBy(s, p)| ==> EmittedBy(s, p)[k].meta.outputIndex == Sat(k))
      && p.capture.producer.counters.blocksEnqueued == p.worker.counters.blocksProcessed + |Queue(p)|
      && p.capture.producer.counters.framesEnqueued == p.worker.counters.nativeFrames + SumFrames(Queue(p))
      && p.worker.counters.discontinuousBlocks == p.worker.counters.resets
         == CountFlagged(p.capture.enqueued[..Taken(p)])
  {
    StartInv(s);
    RunKeeps(s, states, ops, i);
    Balanced(s, states[i]);
    IndicesConsecutive(s, states[i].capture.enqueued[..Taken(states[i])]);
  }

  lemma Balanced<T>(s: Setup<T>, p: Pipeline<T>)
    requires Inv(s, p)
    ensures p.capture.producer.counters.blocksEnqueued == p.worker.counters.blocksProcessed + |Queue(p)|
    ensures p.capture.producer.counters.framesEnqueued == p.worker.counters.nativeFrames + SumFrames(Queue(p))
  {
    SumFramesConcat(p.capture.enqueued[..Taken(p)], Queue(p));
    assert p.capture.enqueued[..Taken(p)] + Queue(p) == p.capture.enqueued;
  }

  lemma {:induction false} SumFramesConcat<T>(a: seq<Block<T>>, b: seq<Block<T>>)
    ensures SumFrames(a + b) == SumFrames(a) + SumFrames(b)
  {
    if b == [] {
      assert a + b == a;
    } else {
      assert (a + b)[..|a + b| - 1] == a + b[..|b| - 1];
      SumFramesConcat(a, b[..|b| - 1]);
    }
  }

  lemma {:induction false} IndicesConsecutive<T>(s: Setup<T>, blocks: seq<Block<T>>)
    requires SetupOk(s)
    ensures forall k :: 0 <= k < |EmittedOf(s, blocks)| ==> EmittedOf(s, blocks)[k].meta.outputIndex == Sat(k)
  {
    if blocks != [] {
      IndicesConsecutive(s, blocks[..|blocks| - 1]);
    }
  }

  // ---- what the worker's own calls count ----

  /** Utterances opened by the first `i` operations. */
  function Opened<T>(states: seq<Pipeline<T>>, ops: seq<Op<T>>, i: nat): nat
    requires i <= |ops| < |states|
  {
    if i == 0 then 0
    else Opened(states, ops, i - 1) + if ops[i - 1].BeginUtterance? && !states[i - 1].worker.active then 1 else 0
  }

  /** Blocks drained by finishing in the first `i` operations. */
  function DrainedBy<T>(states: seq<Pipeline<T>>, ops: seq<Op<T>>, i: nat): nat
    requires i <= |ops| < |states|
    requires forall k :: 0 <= k < i ==> Taken(states[k]) <= |states[k].capture.enqueued|
  {
    if i == 0 then 0
    else
      DrainedBy(states, ops, i - 1) +
      if !states[i - 1].worker.active then 0
      else if ops[i - 1].FinishUtterance? then |Queue(states[i - 1])|
      else if ops[i - 1].Seal? then ops[i - 1].drained
      else 0
  }

  lemma {:induction false} DrainCounts<T>(s: Setup<T>, w: Worker<T>, blocks: seq<Block<T>>)
    requires SetupOk(s) && Bounded(s, w)
    ensures var d := Drain(s, w, blocks);
      && d.counters.utterancesStarted == w.counters.utterancesStarted
      && d.counters.finalDrain == w.counters.finalDrain
    decreases |blocks|
  {
    if blocks != [] {
      ProcessEffect(s, w, blocks[0]);
      DrainCounts(s, Process(s, w, blocks[0]), blocks[1..]);
    }
  }

  lemma OneCounts<T>(s: Setup<T>, p: Pipeline<T>, op: Op<T>)
    requires Ready(s, p) && Enabled(s, p, op)
    ensures var k, now := p.worker.counters, Do(s, p, op).worker.counters;
      && now.utterancesStarted
         == k.utterancesStarted + (if op.BeginUtterance? && !p.worker.active then 1 else 0)
      && now.finalDrain ==
           if !p.worker.active then k.finalDrain
           else if op.FinishUtterance? then Sat(k.finalDrain + |Queue(p)|)
           else if op.Seal? then Sat(k.finalDrain + op.drained)
           else k.finalDrain
  {
    if op.ProcessNext? && Queue(p) != [] { ProcessEffect(s, p.worker, Queue(p)[0]); }
    if op.FinishUtterance? { DrainCounts(s, p.worker, Queue(p)); }
  }

  /** Over every run the worker has counted the utterances it opened and, saturating, the blocks
      it drained in finishing them. */
  lemma {:induction false} CallsCounted<T>(s: Setup<T>, states: seq<Pipeline<T>>, ops: seq<Op<T>>, i: nat)
    requires IsRun(s, states, ops) && states[0] == Start() && i < |states|
    ensures forall k :: 0 <= k < i ==> Taken(states[k]) <= |states[k].capture.enqueued|
    ensures states[i].worker.counters.utterancesStarted == Opened(states, ops, i)
    ensures states[i].worker.counters.finalDrain == Sat(DrainedBy(states, ops, i))
  {
    if i > 0 {
      CallsCounted(s, states, ops, i - 1);
      OneCounts(s, states[i - 1], ops[i - 1]);
      SatTwice(DrainedBy(states, ops, i - 1), DrainedBy(states, ops, i) - DrainedBy(states, ops, i - 1));
    }
  }

  // ---- when an utterance is open ----

  predicate Closes<T>(op: Op<T>) {
    op.FinishUtterance? || op.EndUtterance? || op.ClearUtterance? || op.Seal?
  }

  /** Some operation before `i` began an utterance and none since closed it. */
  predicate OpenAt<T>(ops: seq<Op<T>>, i: nat)
    requires i <= |ops|
  {
    exists k :: 0 <= k < i && ops[k].BeginUtterance? && forall m :: k < m < i ==> !Closes(ops[m])
  }

  lemma OneOpens<T>(s: Setup<T>, p: Pipeline<T>, op: Op<T>)
    requires Ready(s, p) && Enabled(s, p, op)
    ensures Do(s, p, op).worker.active <==> op.BeginUtterance? || (p.worker.active && !Closes(op))
  {
    if op.ProcessNext? && Queue(p) != [] { ProcessEffect(s, p.worker, Queue(p)[0]); }
  }

  /** Over every run the worker is recording exactly if it was told to begin and not since to
      finish, end or clear. */
  lemma {:induction false} OpenExactly<T>(s: Setup<T>, states: seq<Pipeline<T>>, ops: seq<Op<T>>, i: nat)
    requires IsRun(s, states, ops) && !states[0].worker.active && i < |states|
    ensures states[i].worker.active <==> OpenAt(ops, i)
  {
    if i > 0 {
      OpenExactly(s, states, ops, i - 1);
      OneOpens(s, states[i - 1], ops[i - 1]);
      if OpenAt(ops, i - 1) && !Closes(ops[i - 1]) {
        var k :| 0 <= k < i - 1 && ops[k].BeginUtterance? && forall m :: k < m < i - 1 ==> !Closes(ops[m]);
        assert forall m :: k < m < i ==> !Closes(ops[m]);
      }
    }
  }

  // ---- discontinuities ----

  /** A flagged block restarts the resampler, so it always yields a first sample, and
      that sample carries the block's flags; no other sample of the block carries any. */
  lemma FlagsReachTheOutput<T>(s: Setup<T>, w: Worker<T>, b: Block<T>)
    requires SetupOk(s) && Bounded(s, w)
    requires b.meta.discontinuity != {} && |b.samples| >= s.config.native.channels
    ensures var timed := TimedOf(s, w, b);
      && |timed| >= 1
      && timed[0].meta.discontinuity == b.meta.discontinuity
      && timed[0].sample == MonoOf(s, b.samples)[0]
      && (forall k :: 1 <= k < |timed| ==> timed[k].meta.discontinuity == {})
    ensures w.active ==> Discontinuity in Process(s, w, b).issues
  {
    FloorAtLeast(1, |b.samples|, s.config.native.channels);
    assert [] + MonoOf(s, b.samples) == MonoOf(s, b.samples);
    if w.active { ProcessActive(s, w, b); }
  }

  /** No flag is lost: at any time it waits with the producer for the next block, or
      the very next block enqueued after it was raised carries it. */
  lemma NoFlagLost<T>(native: Native, c: Capture<T>, r: Raise)
    requires CaptureInv(native, c) && r in c.raised
    ensures if r.at < |c.enqueued| then r.flags <= c.enqueued[r.at].meta.discontinuity
            else r.flags <= Owed(c.producer)
  {
    RaisedIncludes(c.raised, r);
  }

  lemma {:induction false} RaisedIncludes(raised: seq<Raise>, r: Raise)
    requires r in raised
    ensures r.flags <= RaisedAt(raised, r.at)
  {
    if raised[|raised| - 1] != r { RaisedIncludes(raised[..|raised| - 1], r); }
  }

  /** Each block starts at the source frame where the ones before it end. */
  predicate Seamless<T>(blocks: seq<Block<T>>) {
    |blocks| <= 1
    || var init := blocks[..|blocks| - 1];
       Seamless(init) && blocks[|blocks| - 1].meta.first == Sat(blocks[0].meta.first + SumFrames(init))
  }

  /** The resampler never interpolates across missing frames: its run is exactly the mono
      signal of the last blocks processed, and those blocks are seamless. */
  lemma NeverAcrossAGap<T>(s: Setup<T>, p: Pipeline<T>) returns (j: nat)
    requires Inv(s, p)
    ensures j <= Taken(p) <= |p.capture.enqueued|
    ensures p.worker.run == MonoOf(s, Concat(p.capture.enqueued[j..Taken(p)]))
    ensures Seamless(p.capture.enqueued[j..Taken(p)])
  {
    assert Interleaved(s.config.native, p.capture.enqueued);
    j := RunStart(s, p.capture.enqueued, Taken(p));
  }

  /** Blocks `j..n` are seamless and make up the run after `n` blocks. */
  ghost predicate MakesRun<T>(s: Setup<T>, blocks: seq<Block<T>>, j: nat, n: nat)
    requires SetupOk(s)
  {
    && j <= n <= |blocks|
    && RunOf(s, blocks[..n]) == MonoOf(s, Concat(blocks[j..n]))
    && Seamless(blocks[j..n])
  }

  lemma RunStart<T>(s: Setup<T>, blocks: seq<Block<T>>, n: nat) returns (j: nat)
    requires SetupOk(s) && n <= |blocks| && Interleaved(s.config.native, blocks) && Unbroken(blocks)
    ensures MakesRun(s, blocks, j, n)
  {
    j := 0;
    EmptyRun(s, blocks);
    for i := 0 to n
      invariant MakesRun(s, blocks, j, i)
    {
      j := RunStep(s, blocks, j, i);
    }
  }

  lemma EmptyRun<T>(s: Setup<T>, blocks: seq<Block<T>>)
    requires SetupOk(s)
    ensures MakesRun(s, blocks, 0, 0)
  {
    assert blocks[..0] == [] && blocks[0..0] == [];
  }

  lemma RunStep<T>(s: Setup<T>, blocks: seq<Block<T>>, j: nat, n: nat) returns (k: nat)
    requires SetupOk(s) && n < |blocks| && Interleaved(s.config.native, blocks) && Unbroken(blocks)
    requires MakesRun(s, blocks, j, n)
    ensures MakesRun(s, blocks, k, n + 1)
  {
    if blocks[n].meta.discontinuity != {} {
      k := n;
      StepRestarts(s, blocks, n);
    } else {
      k := j;
      SliceInterleaved(s.config.native, blocks, j, n);
      LastContinues(blocks, j, n);
      StepContinues(s, blocks, j, n);
    }
  }

  lemma StepRestarts<T>(s: Setup<T>, blocks: seq<Block<T>>, n: nat)
    requires SetupOk(s) && n < |blocks| && blocks[n].meta.discontinuity != {}
    ensures MakesRun(s, blocks, n, n + 1)
  {
    RunRestarts(s, blocks[..n], blocks[n]);
    assert blocks[..n + 1] == blocks[..n] + [blocks[n]];
    assert blocks[n..n + 1] == [blocks[n]];
  }

  lemma StepContinues<T>(s: Setup<T>, blocks: seq<Block<T>>, j: nat, n: nat)
    requires SetupOk(s) && n < |blocks| && blocks[n].meta.discontinuity == {}
    requires MakesRun(s, blocks, j, n) && Interleaved(s.config.native, blocks[j..n])
    requires Seamless(blocks[j..n] + [blocks[n]])
    ensures MakesRun(s, blocks, j, n + 1)
  {
    RunContinues(s, blocks[..n], blocks[j..n], blocks[n]);
    SliceGrows(blocks, j, n);
  }

  lemma SliceGrows<T>(blocks: seq<Block<T>>, j: nat, n: nat)
    requires j <= n < |blocks|
    ensures blocks[j..n + 1] == blocks[j..n] + [blocks[n]]
    ensures blocks[..n + 1] == blocks[..n] + [blocks[n]]
  {
  }

  lemma RunRestarts<T>(s: Setup<T>, init: seq<Block<T>>, b: Block<T>)
    requires SetupOk(s) && b.meta.discontinuity != {}
    ensures RunOf(s, init + [b]) == MonoOf(s, Concat([b]))
  {
    assert (init + [b])[..|init|] == init;
    assert [b][..0] == [];
    assert Concat([b]) == b.samples;
    assert [] + MonoOf(s, b.samples) == MonoOf(s, b.samples);
  }

  lemma RunContinues<T>(s: Setup<T>, init: seq<Block<T>>, recent: seq<Block<T>>, b: Block<T>)
    requires SetupOk(s) && b.meta.discontinuity == {} && Interleaved(s.config.native, recent)
    requires RunOf(s, init) == MonoOf(s, Concat(recent))
    ensures RunOf(s, init + [b]) == MonoOf(s, Concat(recent + [b]))
  {
    assert (init + [b])[..|init|] == init;
    MonoGrows(s, recent, b);
  }

  lemma SliceInterleaved<T>(native: Native, blocks: seq<Block<T>>, j: nat, n: nat)
    requires Interleaved(native, blocks) && j <= n <= |blocks|
    ensures Interleaved(native, blocks[j..n])
  {
  }

  lemma LastContinues<T>(blocks: seq<Block<T>>, j: nat, n: nat)
    requires Unbroken(blocks) && j <= n < |blocks|
    requires blocks[n].meta.discontinuity == {} && Seamless(blocks[j..n])
    ensures Seamless(blocks[j..n] + [blocks[n]])
  {
    if j < n {
      SeamlessGrows(blocks[j..n], blocks[n]);
    }
  }

  lemma SeamlessGrows<T>(blocks: seq<Block<T>>, b: Block<T>)
    requires blocks != [] && Seamless(blocks) && b.meta.first == EndOf(blocks[|blocks| - 1])
    ensures Seamless(blocks + [b])
  {
    SeamlessEnd(blocks);
    assert (blocks + [b])[..|blocks|] == blocks;
  }

  lemma SeamlessEnd<T>(blocks: seq<Block<T>>)
    requires blocks != [] && Seamless(blocks)
    ensures EndOf(blocks[|blocks| - 1]) == Sat(blocks[0].meta.first + SumFrames(blocks))
  {
    var init, last := blocks[..|blocks| - 1], blocks[|blocks| - 1];
    if init == [] {
      assert SumFrames(init) == 0;
    } else {
      SatTwice(blocks[0].meta.first + SumFrames(init), last.frames);
    }
  }

  /** Every block is a whole number of interleaved frames. */
  ghost predicate Interleaved<T>(native: Native, blocks: seq<Block<T>>) {
    forall i :: 0 <= i < |blocks| ==> |blocks[i].samples| == blocks[i].frames * native.channels
  }

  lemma MonoGrows<T>(s: Setup<T>, blocks: seq<Block<T>>, b: Block<T>)
    requires SetupOk(s)
    requires Interleaved(s.config.native, blocks)
    ensures MonoOf(s, Concat(blocks + [b])) == MonoOf(s, Concat(blocks)) + MonoOf(s, b.samples)
  {
    ConcatWhole(s.config.native, blocks);
    MonoConcat(s.config.native.channels, s.config.policy, s.average, Concat(blocks), SumFrames(blocks), b.samples);
    assert (blocks + [b])[..|blocks|] == blocks;
  }

  lemma {:induction false} ConcatWhole<T>(native: Native, blocks: seq<Block<T>>)
    requires Interleaved(native, blocks)
    ensures |Concat(blocks)| == SumFrames(blocks) * native.channels
  {
    if blocks != [] {
      var init, last := blocks[..|blocks| - 1], blocks[|blocks| - 1];
      ConcatWhole(native, init);
      Distribute(SumFrames(init), last.frames, native.channels);
    }
  }
}
