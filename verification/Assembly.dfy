/** Both objects of one pipeline driven together: whatever is asked of them, in whatever order,
    they stay valid and their joint state is the pipeline's. */
module Assembly {
  import opened Prelude
  import opened Callback
  import opened CallbackLaws
  import opened CaptureRing
  import opened AudioWorker
  import opened Resampler
  import opened Format
  import opened WorkerSpec
  import opened Pipeline

  /** The calls the two objects take from outside. */
  datatype Request<T> = Write(call: Call<T>) | Process | Begin | Finish | End | Clear

  /** The joint state after a request; a write finds `slots - queued` free slots. */
  function Served<T>(s: Setup<T>, p: Pipeline<T>, request: Request<T>): Pipeline<T>
    requires Ready(s, p) && p.capture.producer.flight.None? && |Queue(p)| <= s.config.native.slots
  {
    match request
    case Write(call) =>
      p.(capture := Callback.Write(s.config.native, p.capture, call, s.config.native.slots - |Queue(p)|).0)
    case Process => Do(s, p, ProcessNext)
    case Begin => Do(s, p, BeginUtterance)
    case Finish => Do(s, p, FinishUtterance)
    case End => Do(s, p, EndUtterance)
    case Clear => Do(s, p, ClearUtterance)
  }

  /** Between requests no callback is under way and the ring is never overfull. */
  ghost predicate Idle<T>(s: Setup<T>, p: Pipeline<T>) {
    Inv(s, p) && p.capture.producer.flight.None? && |Queue(p)| <= s.config.native.slots
  }

  lemma {:induction false} LoopGrows<T>(native: Native, c: Capture<T>, room: nat)
    requires CaptureInv(native, c) && c.producer.flight.Some?
    ensures var d := WriteLoop(native, c, room).0;
      c.enqueued <= d.enqueued && |d.enqueued| <= |c.enqueued| + room
    decreases room
  {
    if room > 0 {
      PublishKeeps(native, c);
      if Publish(native, c).producer.flight.Some? { LoopGrows(native, Publish(native, c), room - 1); }
    }
  }

  lemma ServingKeepsIdle<T>(s: Setup<T>, p: Pipeline<T>, request: Request<T>)
    requires Idle(s, p)
    ensures Idle(s, Served(s, p, request))
  {
    match request
    case Write(call) =>
      WriteKeepsIdle(s, p, call);
    case Process =>
      StepKeeps(s, p, ProcessNext);
      if Queue(p) != [] { ProcessEffect(s, p.worker, Queue(p)[0]); }
    case Begin => StepKeeps(s, p, BeginUtterance);
    case Finish =>
      StepKeeps(s, p, FinishUtterance);
      if p.worker.active { DrainKeeps(s, p.worker, p.capture.enqueued, Taken(p)); }
    case End => StepKeeps(s, p, EndUtterance);
    case Clear => StepKeeps(s, p, ClearUtterance);
  }

  lemma WriteGrows<T>(native: Native, c: Capture<T>, call: Call<T>, room: nat)
    requires CaptureInv(native, c) && c.producer.flight.None?
    ensures var d := Callback.Write(native, c, call, room).0;
      && CaptureInv(native, d) && d.producer.flight.None?
      && c.enqueued <= d.enqueued && |d.enqueued| <= |c.enqueued| + room
  {
    WriteKeeps(native, c, call, room);
    EnterKeeps(native, c, call);
    var entered := Enter(native, c, call);
    if entered.producer.flight.Some? { LoopGrows(native, entered, room); }
  }

  lemma WriteKeepsIdle<T>(s: Setup<T>, p: Pipeline<T>, call: Call<T>)
    requires Idle(s, p)
    ensures Idle(s, Served(s, p, Write(call)))
  {
    WriteGrows(s.config.native, p.capture, call, s.config.native.slots - |Queue(p)|);
    SamePrefix(p.capture.enqueued, Served(s, p, Write(call)).capture.enqueued, Taken(p));
  }

  // ---- as runs ----

  /** An operation followed by a run. */
  lemma RunAfter<T>(s: Setup<T>, p: Pipeline<T>, op: Op<T>, states: seq<Pipeline<T>>, ops: seq<Op<T>>)
      returns (more: seq<Pipeline<T>>, all: seq<Op<T>>)
    requires Ready(s, p) && Enabled(s, p, op) && IsRun(s, states, ops) && states[0] == Do(s, p, op)
    ensures IsRun(s, more, all) && more[0] == p && more[|all|] == states[|ops|]
  {
    more, all := [p] + states, [op] + ops;
    forall i | 0 <= i < |all|
      ensures Ready(s, more[i]) && Enabled(s, more[i], all[i]) && more[i + 1] == Do(s, more[i], all[i])
    {
      if i > 0 { assert more[i] == states[i - 1] && more[i + 1] == states[i] && all[i] == ops[i - 1]; }
    }
  }

  /** The block loop is a run of publications, and one overflow if the ring fills up. */
  lemma {:induction false} LoopIsARun<T>(s: Setup<T>, p: Pipeline<T>, room: nat)
      returns (states: seq<Pipeline<T>>, ops: seq<Op<T>>)
    requires InLoop(s, p) && room == s.config.native.slots - |Queue(p)|
    ensures IsRun(s, states, ops) && states[0] == p && states[|ops|] == Looped(s, p, room)
    decreases room
  {
    var op := if room == 0 then DropRest else PublishOne;
    var next := Do(s, p, op);
    LoopStep(s, p, room);
    if next.capture.producer.flight.Some? {
      states, ops := LoopIsARun(s, next, room - 1);
    } else {
      states, ops := [next], [];
    }
    states, ops := RunAfter(s, p, op, states, ops);
  }

  ghost predicate InLoop<T>(s: Setup<T>, p: Pipeline<T>) {
    Ready(s, p) && p.capture.producer.flight.Some? && FlightOk(s.config.native, p.capture.producer)
  }

  function Looped<T>(s: Setup<T>, p: Pipeline<T>, room: nat): Pipeline<T>
    requires p.capture.producer.flight.Some? && FlightFits(s.config.native, p.capture.producer.flight.value)
  {
    p.(capture := WriteLoop(s.config.native, p.capture, room).0)
  }

  lemma LoopStep<T>(s: Setup<T>, p: Pipeline<T>, room: nat)
    requires InLoop(s, p) && room == s.config.native.slots - |Queue(p)|
    ensures var op := if room == 0 then DropRest else PublishOne;
      && Enabled(s, p, op)
      && var next := Do(s, p, op);
      && Ready(s, next)
      && (next.capture.producer.flight.None? ==> next == Looped(s, p, room))
      && (next.capture.producer.flight.Some? ==>
            && room > 0 && InLoop(s, next) && |Queue(next)| == |Queue(p)| + 1
            && Looped(s, p, room) == Looped(s, next, room - 1))
  {
  }

  /** Whatever is asked, serving it is a pipeline run. */
  lemma ServedIsARun<T>(s: Setup<T>, p: Pipeline<T>, request: Request<T>)
      returns (states: seq<Pipeline<T>>, ops: seq<Op<T>>)
    requires Idle(s, p)
    ensures IsRun(s, states, ops) && states[0] == p && states[|ops|] == Served(s, p, request)
  {
    var op := FirstOp(request);
    var next := Do(s, p, op);
    ServedStep(s, p, request);
    if next.capture.producer.flight.Some? {
      states, ops := LoopIsARun(s, next, s.config.native.slots - |Queue(next)|);
    } else {
      states, ops := [next], [];
    }
    states, ops := RunAfter(s, p, op, states, ops);
  }

  function FirstOp<T>(request: Request<T>): Op<T> {
    match request
    case Write(call) => Arrive(call)
    case Process => ProcessNext
    case Begin => BeginUtterance
    case Finish => FinishUtterance
    case End => EndUtterance
    case Clear => ClearUtterance
  }

  lemma ServedStep<T>(s: Setup<T>, p: Pipeline<T>, request: Request<T>)
    requires Idle(s, p)
    ensures var next := Do(s, p, FirstOp(request));
      && Ready(s, next)
      && (next.capture.producer.flight.None? ==> Served(s, p, request) == next)
      && (next.capture.producer.flight.Some? ==>
            && InLoop(s, next) && |Queue(next)| <= s.config.native.slots
            && Served(s, p, request) == Looped(s, next, s.config.native.slots - |Queue(next)|))
  {
    if request.Write? {
      ArriveStep(s, p, request.call);
    } else {
      OwnStep(s, p, request);
    }
  }

  lemma OwnStep<T>(s: Setup<T>, p: Pipeline<T>, request: Request<T>)
    requires Idle(s, p) && !request.Write?
    ensures var next := Do(s, p, FirstOp(request));
      Ready(s, next) && next.capture == p.capture && Served(s, p, request) == next
  {
    StepKeeps(s, p, FirstOp(request));
  }

  lemma ArriveStep<T>(s: Setup<T>, p: Pipeline<T>, call: Call<T>)
    requires Ready(s, p) && p.capture.producer.flight.None? && |Queue(p)| <= s.config.native.slots
    ensures var next := Do(s, p, Arrive(call));
      && Ready(s, next) && Queue(next) == Queue(p)
      && (next.capture.producer.flight.None? ==> Served(s, p, Write(call)) == next)
      && (next.capture.producer.flight.Some? ==>
            && InLoop(s, next)
            && Served(s, p, Write(call)) == Looped(s, next, s.config.native.slots - |Queue(next)|))
  {
    EnterFits(s.config.native, p.capture, call);
  }

  ghost function Joint<T>(callback: CaptureCallback<T>, worker: AudioWorker<T>): Pipeline<T>
    requires worker.preRoll.Valid() && worker.utterance.Valid()
    reads callback, worker, worker.resampler, worker.preRoll, worker.preRoll.samples, worker.preRoll.metadata,
      worker.utterance, worker.utterance.samples, worker.utterance.metadata
  {
    Pipeline(callback.capture, worker.State())
  }

  /** The two are the ends of one ring and agree on what has been taken from it. */
  ghost predicate Wired<T>(callback: CaptureCallback<T>, worker: AudioWorker<T>)
    reads callback, callback.ring, callback.ring.samples, callback.ring.frames, callback.ring.metas
    reads worker, worker.consumer, worker.consumer.ring, worker.consumer.ring.samples,
      worker.consumer.ring.frames, worker.consumer.ring.metas
    reads worker.resampler, worker.preRoll, worker.utterance
  {
    && callback.ring == worker.consumer.ring
    && callback.Valid() && worker.Valid()
    && callback.ring.consumed == worker.counters.blocksProcessed
  }

  /** What the ring holds is what the pipeline has queued. */
  lemma RingIsQueue<T>(callback: CaptureCallback<T>, worker: AudioWorker<T>)
    requires Wired(callback, worker)
    ensures var s, p := worker.setup, Joint(callback, worker);
      && Ready(s, p) && p.capture.producer.flight.None? && |Queue(p)| <= s.config.native.slots
      && callback.ring.Queue() == Queue(p)
      && callback.ring.Room() == s.config.native.slots - |Queue(p)|
      && callback.ring.counters == p.capture.producer.counters
      && callback.ring.native == s.config.native
  {
  }

  ghost predicate Linked<T>(callback: CaptureCallback<T>, worker: AudioWorker<T>)
    reads callback, callback.ring, callback.ring.samples, callback.ring.frames, callback.ring.metas
    reads worker, worker.consumer, worker.consumer.ring, worker.consumer.ring.samples,
      worker.consumer.ring.frames, worker.consumer.ring.metas
    reads worker.resampler, worker.preRoll, worker.preRoll.samples, worker.preRoll.metadata,
      worker.utterance, worker.utterance.samples, worker.utterance.metadata
  {
    Wired(callback, worker) && Idle(worker.setup, Joint(callback, worker))
  }

  /** `build_audio_pipeline` links the two. */
  method Assemble<T>(config: Config, lerp: Lerp<T>, average: Average<T>, zero: T)
      returns (r: Result<(CaptureCallback<T>, AudioWorker<T>), BuildError>)
    ensures r.Err? <==> BuildPlan(config).Err?
    ensures r.Ok? ==> Linked(r.value.0, r.value.1) && Joint(r.value.0, r.value.1) == Start()
  {
    r := BuildAudioPipeline(config, lerp, average, zero);
    if r.Ok? {
      StartInv(r.value.1.setup);
    }
  }

  method ServeWrite<T>(callback: CaptureCallback<T>, ghost worker: AudioWorker<T>, call: Call<T>)
      returns (w: CallbackWrite)
    requires Wired(callback, worker)
    modifies callback, callback.ring`published, callback.ring`sent, callback.ring`counters
    modifies callback.ring.samples, callback.ring.frames, callback.ring.metas
    ensures Wired(callback, worker)
    ensures Joint(callback, worker) == old(Served(worker.setup, Joint(callback, worker), Write(call)))
  {
    RingIsQueue(callback, worker);
    w := callback.Write(call);
    RingIsQueue(callback, worker);
  }

  method ServeProcess<T>(ghost callback: CaptureCallback<T>, worker: AudioWorker<T>)
      returns (processed: Option<ProcessedBlock<T>>)
    requires Wired(callback, worker)
    modifies worker, worker.consumer, worker.consumer.ring`consumed, worker.nativeBlock, worker.nativeBlock.samples
    modifies worker.monoScratch, worker.resampledScratch, worker.resampler
    modifies worker.preRoll, worker.preRoll.samples, worker.preRoll.metadata
    modifies worker.utterance, worker.utterance.samples, worker.utterance.metadata
    ensures Wired(callback, worker)
    ensures Joint(callback, worker) == old(Served(worker.setup, Joint(callback, worker), Process))
  {
    RingIsQueue(callback, worker);
    processed := worker.ProcessNext();
    RingIsQueue(callback, worker);
  }

  method ServeBegin<T>(ghost callback: CaptureCallback<T>, worker: AudioWorker<T>)
      returns (r: Result<(), StateError>)
    requires Wired(callback, worker)
    modifies worker, worker.utterance, worker.utterance.samples, worker.utterance.metadata
    ensures Wired(callback, worker)
    ensures Joint(callback, worker) == old(Served(worker.setup, Joint(callback, worker), Begin))
  {
    RingIsQueue(callback, worker);
    r := worker.BeginUtterance();
    RingIsQueue(callback, worker);
  }

  lemma FinishIs<T>(s: Setup<T>, p: Pipeline<T>)
    requires Ready(s, p) && p.capture.producer.flight.None? && |Queue(p)| <= s.config.native.slots
    ensures var r := WorkerSpec.Finish(s, p.worker, Queue(p), p.capture.producer.counters.overflows);
      && Served(s, p, Finish) == (if r.Ok? then p.(worker := r.value.0) else p)
      && (r.Ok? ==> r.value.0.counters.blocksProcessed == |p.capture.enqueued|)
  {
    DrainEffect(s, p.worker, Queue(p));
  }

  method ServeFinish<T>(ghost callback: CaptureCallback<T>, worker: AudioWorker<T>)
      returns (r: Result<Completion, StateError>)
    requires Wired(callback, worker)
    modifies worker, worker.consumer, worker.consumer.ring`consumed, worker.nativeBlock, worker.nativeBlock.samples
    modifies worker.monoScratch, worker.resampledScratch, worker.resampler
    modifies worker.preRoll, worker.preRoll.samples, worker.preRoll.metadata
    modifies worker.utterance, worker.utterance.samples, worker.utterance.metadata
    ensures Wired(callback, worker)
    ensures Joint(callback, worker) == old(Served(worker.setup, Joint(callback, worker), Finish))
  {
    RingIsQueue(callback, worker);
    ghost var s, p := worker.setup, Joint(callback, worker);
    FinishIs(s, p);
    r := worker.FinishUtterance();
    RingIsQueue(callback, worker);
  }

  method ServeEnd<T>(ghost callback: CaptureCallback<T>, worker: AudioWorker<T>)
    requires Wired(callback, worker)
    modifies worker
    ensures Wired(callback, worker)
    ensures Joint(callback, worker) == old(Served(worker.setup, Joint(callback, worker), End))
  {
    RingIsQueue(callback, worker);
    worker.EndUtterance();
    RingIsQueue(callback, worker);
  }

  method ServeClear<T>(ghost callback: CaptureCallback<T>, worker: AudioWorker<T>)
    requires Wired(callback, worker)
    modifies worker, worker.utterance, worker.utterance.samples, worker.utterance.metadata
    ensures Wired(callback, worker)
    ensures Joint(callback, worker) == old(Served(worker.setup, Joint(callback, worker), Clear))
  {
    RingIsQueue(callback, worker);
    worker.ClearUtterance();
    RingIsQueue(callback, worker);
  }

  /** Any one request. */
  method Serve<T>(callback: CaptureCallback<T>, worker: AudioWorker<T>, request: Request<T>)
    requires Linked(callback, worker)
    modifies callback, callback.ring`published, callback.ring`sent, callback.ring`counters, callback.ring`consumed
    modifies callback.ring.samples, callback.ring.frames, callback.ring.metas
    modifies worker, worker.consumer, worker.nativeBlock, worker.nativeBlock.samples
    modifies worker.monoScratch, worker.resampledScratch, worker.resampler
    modifies worker.preRoll, worker.preRoll.samples, worker.preRoll.metadata
    modifies worker.utterance, worker.utterance.samples, worker.utterance.metadata
    ensures Linked(callback, worker)
    ensures Joint(callback, worker) == old(Served(worker.setup, Joint(callback, worker), request))
  {
    ServingKeepsIdle(worker.setup, Joint(callback, worker), request);
    match request {
      case Write(call) => var w := ServeWrite(callback, worker, call);
      case Process => var p := ServeProcess(callback, worker);
      case Begin => var r := ServeBegin(callback, worker);
      case Finish => var r := ServeFinish(callback, worker);
      case End => ServeEnd(callback, worker);
      case Clear => ServeClear(callback, worker);
    }
  }

  ghost function AllServed<T>(s: Setup<T>, p: Pipeline<T>, requests: seq<Request<T>>): (d: Pipeline<T>)
    requires Idle(s, p)
    ensures Idle(s, d)
  {
    if requests == [] then p
    else
      var before := AllServed(s, p, requests[..|requests| - 1]);
      ServingKeepsIdle(s, before, requests[|requests| - 1]);
      Served(s, before, requests[|requests| - 1])
  }

  lemma OneMoreServed<T>(s: Setup<T>, p: Pipeline<T>, requests: seq<Request<T>>, i: nat)
    requires Idle(s, p) && i < |requests|
    ensures AllServed(s, p, requests[..i + 1]) == Served(s, AllServed(s, p, requests[..i]), requests[i])
  {
    assert requests[..i + 1][..i] == requests[..i];
  }

  /** Any requests in any order: every state in between is the pipeline's, so every theorem
      about pipelines holds of the two objects. */
  method ServeAll<T>(callback: CaptureCallback<T>, worker: AudioWorker<T>, requests: seq<Request<T>>)
    requires Linked(callback, worker)
    modifies callback, callback.ring`published, callback.ring`sent, callback.ring`counters, callback.ring`consumed
    modifies callback.ring.samples, callback.ring.frames, callback.ring.metas
    modifies worker, worker.consumer, worker.nativeBlock, worker.nativeBlock.samples
    modifies worker.monoScratch, worker.resampledScratch, worker.resampler
    modifies worker.preRoll, worker.preRoll.samples, worker.preRoll.metadata
    modifies worker.utterance, worker.utterance.samples, worker.utterance.metadata
    ensures Linked(callback, worker)
    ensures Joint(callback, worker) == old(AllServed(worker.setup, Joint(callback, worker), requests))
  {
    ghost var s, start := worker.setup, Joint(callback, worker);
    for i := 0 to |requests|
      invariant Linked(callback, worker)
      invariant Joint(callback, worker) == AllServed(s, start, requests[..i])
    {
      OneMoreServed(s, start, requests, i);
      Serve(callback, worker, requests[i]);
    }
    assert requests[..|requests|] == requests;
  }
}
