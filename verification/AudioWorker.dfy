/** The audio worker of processing.rs over its preallocated buffers, proved
    against the functions of WorkerSpec. */
module AudioWorker {
  import opened Prelude
  import opened Callback
  import opened CaptureRing
  import opened Format
  import opened Resampler
  import opened Buffers
  import opened WorkerSpec

  datatype ProcessedBlock<T> = ProcessedBlock(source: Metadata, firstOutputIndex: u64, samples: seq<T>)

  class AudioWorker<T> {
    const setup: Setup<T>
    const consumer: RingConsumer<T>
    const nativeBlock: CapturedNativeBlock<T>
    const monoScratch: array<T>
    const resampledScratch: array<T>
    var resampledLen: nat
    const resampler: StreamingLinearResampler<T>
    var nextOutputSampleIndex: u64
    const preRoll: TimedRingBuffer<T>
    const utterance: TimedUtteranceBuffer<T>
    var utteranceActive: bool
    var utteranceIssues: set<Issue>
    var overflowsAtStart: nat
    var counters: WorkerCounters

    /** The parts are allocated once, apart from each other, at the planned sizes. */
    ghost predicate Shape()
    {
      && SetupOk(setup)
      && consumer.ring.native == setup.config.native
      && nativeBlock.samples.Length == setup.plan.nativeSamples
      && monoScratch.Length == setup.config.native.framesPerBlock
      && resampledScratch.Length == setup.plan.resampledCapacity
      && resampler.rates == RatesOf(setup.config) && resampler.lerp == setup.lerp
      && preRoll.samples.Length == setup.plan.preRollFrames
      && utterance.samples.Length == setup.plan.utteranceLimit
      && nativeBlock.samples as object !in {consumer.ring.frames, consumer.ring.metas, monoScratch, resampledScratch,
           preRoll.samples, preRoll.metadata, utterance.samples, utterance.metadata}
      && monoScratch as object !in {consumer.ring.frames, consumer.ring.metas, resampledScratch,
           preRoll.samples, preRoll.metadata, utterance.samples, utterance.metadata}
      && resampledScratch as object !in {consumer.ring.frames, consumer.ring.metas,
           preRoll.samples, preRoll.metadata, utterance.samples, utterance.metadata}
      && preRoll.samples as object !in {consumer.ring.frames, consumer.ring.metas,
           utterance.samples, utterance.metadata}
      && preRoll.metadata as object !in {consumer.ring.frames, consumer.ring.metas,
           utterance.samples, utterance.metadata}
      && utterance.samples as object !in {consumer.ring.frames, consumer.ring.metas}
      && utterance.metadata as object !in {consumer.ring.frames, consumer.ring.metas}
    }

    ghost predicate Valid()
      reads consumer, consumer.ring, consumer.ring.samples, consumer.ring.frames, consumer.ring.metas,
        resampler, preRoll, utterance
    {
      Shape() && consumer.Valid() && resampler.Valid() && preRoll.Valid() && utterance.Valid()
    }

    /** The state the specification speaks of. */
    ghost function State(): (w: Worker<T>)
      requires preRoll.Valid() && utterance.Valid()
      reads this, resampler, preRoll, preRoll.samples, preRoll.metadata,
        utterance, utterance.samples, utterance.metadata
    {
      Worker(resampler.history, nextOutputSampleIndex, preRoll.Contents(), utterance.Contents(),
        utteranceActive, utteranceIssues, overflowsAtStart, counters)
    }

    constructor (setup: Setup<T>, ring: Ring<T>, zero: T)
      requires BuildPlan(setup.config) == Ok(setup.plan) && ring.native == setup.config.native
      requires ring.Valid() && ring.consumed == 0 && ring.published == 0
      ensures Valid() && this.setup == setup && consumer.ring == ring
      ensures State() == InitialWorker()
    {
      PlanSuffices(setup, 0, 0);
      this.setup := setup;
      consumer := new RingConsumer(ring);
      nativeBlock := new CapturedNativeBlock(setup.plan.nativeSamples, zero);
      monoScratch := new T[setup.config.native.framesPerBlock](i => zero);
      resampledScratch := new T[setup.plan.resampledCapacity](i => zero);
      resampledLen := 0;
      resampler := new StreamingLinearResampler(RatesOf(setup.config), setup.lerp);
      nextOutputSampleIndex := 0;
      preRoll := new TimedRingBuffer(setup.plan.preRollFrames, zero);
      utterance := new TimedUtteranceBuffer(setup.plan.utteranceLimit, zero);
      utteranceActive, utteranceIssues, overflowsAtStart, counters := false, {}, 0, ZERO_WORKER_COUNTERS;
    }

    method ResetIfFlagged(source: Metadata, ghost b: Block<T>)
      requires preRoll.Valid() && utterance.Valid() && resampler.Valid() && b.meta == source
      modifies resampler, this`counters, this`utteranceIssues
      ensures resampler.Valid()
      ensures State() == Flagged(old(State()), b)
    {
      if source.discontinuity != {} {
        resampler.Reset();
        counters := counters.(
          discontinuousBlocks := counters.discontinuousBlocks + 1, resets := counters.resets + 1);
        if utteranceActive {
          utteranceIssues := utteranceIssues + {Discontinuity};
        }
      }
    }

    /** Downmixes the captured block and resamples it; neither can fail. */
    method Convert(ghost b: Block<T>)
      requires Shape() && resampler.Valid() && preRoll.Valid() && utterance.Valid() && nativeBlock.Carries(b)
      requires |b.samples| == b.frames * setup.config.native.channels
      requires b.frames <= setup.config.native.framesPerBlock
      modifies monoScratch, resampledScratch, resampler, this`resampledLen
      ensures resampler.Valid()
      ensures resampledLen <= resampledScratch.Length
      ensures State() == old(State()).(run := old(resampler.history) + MonoOf(setup, b.samples))
      ensures resampledScratch[..resampledLen] ==
        Added(RatesOf(setup.config), setup.lerp, old(resampler.history), MonoOf(setup, b.samples))
    {
      ScratchSuffices(RatesOf(setup.config), |resampler.history|, b.frames, setup.config.native.framesPerBlock);
      ExactFrames(b.frames, setup.config.native.channels);
      var mixed := DownmixInto(nativeBlock.samples, nativeBlock.sampleLen, setup.config.native.channels,
        setup.config.policy, setup.average, monoScratch);
      assert mixed.Ok?;
      var produced := resampler.ProcessInto(monoScratch, mixed.value, resampledScratch);
      assert produced.Ok?;
      resampledLen := produced.value;
    }

    method KeepRecent(output: seq<T>, source: Metadata)
      requires Shape() && preRoll.Valid() && utterance.Valid() && preRoll.samples.Length > 0
      modifies preRoll, preRoll.samples, preRoll.metadata, this`counters
      ensures preRoll.Valid()
      ensures var w := old(State());
        var timed := Stamped(output, source, w.nextIndex, setup.config.targetRate);
        var kept := LastOf(setup.plan.preRollFrames, w.preRoll + timed);
        State() == w.(preRoll := kept, counters := w.counters.(
          preRollOverwritten := w.counters.preRollOverwritten + (|w.preRoll| + |timed| - |kept|)))
    {
      var overwritten := preRoll.PushBlock(output, source, nextOutputSampleIndex, setup.config.targetRate);
      counters := counters.(preRollOverwritten := counters.preRollOverwritten + overwritten);
    }

    method KeepUtterance(output: seq<T>, source: Metadata)
      requires Shape() && preRoll.Valid() && utterance.Valid()
      modifies utterance, utterance.samples, utterance.metadata, this`counters, this`utteranceIssues
      ensures utterance.Valid()
      ensures var w := old(State());
        var timed := Stamped(output, source, w.nextIndex, setup.config.targetRate);
        var kept := FirstOf(setup.plan.utteranceLimit, w.utterance + timed);
        var rejected := |w.utterance| + |timed| - |kept|;
        State() == w.(utterance := kept,
          issues := if rejected > 0 then w.issues + setup.plan.limitIssues else w.issues,
          counters := w.counters.(
            buffered := w.counters.buffered + (|kept| - |w.utterance|),
            rejected := w.counters.rejected + rejected,
            limitEvents := if rejected > 0 && w.issues == {} then w.counters.limitEvents + 1
                           else w.counters.limitEvents))
    {
      var accepted, rejected :=
        utterance.AppendBlock(output, source, nextOutputSampleIndex, setup.config.targetRate);
      counters := counters.(
        buffered := counters.buffered + accepted, rejected := counters.rejected + rejected);
      if rejected > 0 {
        if utteranceIssues == {} {
          counters := counters.(limitEvents := counters.limitEvents + 1);
        }
        utteranceIssues := utteranceIssues + setup.plan.limitIssues;
      }
    }

    /** Stores a block's output in the pre-roll and in the active utterance. */
    method Retain(output: seq<T>, source: Metadata)
      requires Shape() && preRoll.Valid() && utterance.Valid()
      modifies preRoll, preRoll.samples, preRoll.metadata
      modifies utterance, utterance.samples, utterance.metadata
      modifies this`counters, this`utteranceIssues
      ensures preRoll.Valid() && utterance.Valid()
      ensures Bounded(setup, old(State()))
      ensures State() == Retained(setup, old(State()),
        Stamped(output, source, nextOutputSampleIndex, setup.config.targetRate))
    {
      KeepRecent(output, source);
      if utteranceActive {
        KeepUtterance(output, source);
      }
    }

    /** Everything a captured block goes through once it has left the ring. */
    method ProcessCaptured(ghost b: Block<T>) returns (processed: ProcessedBlock<T>)
      requires Shape() && resampler.Valid() && preRoll.Valid() && utterance.Valid() && nativeBlock.Carries(b)
      requires |b.samples| == b.frames * setup.config.native.channels
      requires b.frames <= setup.config.native.framesPerBlock
      modifies this`resampledLen, this`nextOutputSampleIndex, this`utteranceIssues, this`counters
      modifies monoScratch, resampledScratch, resampler, preRoll, preRoll.samples, preRoll.metadata
      modifies utterance, utterance.samples, utterance.metadata
      ensures resampler.Valid() && preRoll.Valid() && utterance.Valid()
      ensures Bounded(setup, old(State()))
      ensures State() == Process(setup, old(State()), b)
      ensures processed == ProcessedBlock(b.meta, old(nextOutputSampleIndex), OutputOf(setup, old(State()), b))
    {
      var source := nativeBlock.metadata.value;
      var output := Hear(source, b);
      var first := nextOutputSampleIndex;
      Retain(output, source);
      Count(nativeBlock.frames);
      processed := ProcessedBlock(source, first, output);
    }

    /** The block's flags, then its samples through the downmix and the resampler. */
    method Hear(source: Metadata, ghost b: Block<T>) returns (output: seq<T>)
      requires Shape() && resampler.Valid() && preRoll.Valid() && utterance.Valid()
      requires nativeBlock.Carries(b) && b.meta == source
      requires |b.samples| == b.frames * setup.config.native.channels
      requires b.frames <= setup.config.native.framesPerBlock
      modifies this`resampledLen, this`utteranceIssues, this`counters
      modifies monoScratch, resampledScratch, resampler
      ensures resampler.Valid()
      ensures State() == Heard(setup, old(State()), b)
      ensures output == OutputOf(setup, old(State()), b) && |output| == resampledLen
    {
      ResetIfFlagged(source, b);
      Convert(b);
      output := resampledScratch[..resampledLen];
    }

    method Count(frames: nat)
      requires preRoll.Valid() && utterance.Valid()
      modifies this`nextOutputSampleIndex, this`counters
      ensures State() == Counted(old(State()), frames, resampledLen)
    {
      nextOutputSampleIndex := Sat(nextOutputSampleIndex + resampledLen);
      counters := counters.(
        blocksProcessed := counters.blocksProcessed + 1,
        nativeFrames := counters.nativeFrames + frames,
        resampledFrames := counters.resampledFrames + resampledLen);
    }

    method ProcessNext() returns (processed: Option<ProcessedBlock<T>>)
      requires Valid()
      modifies this`resampledLen, this`nextOutputSampleIndex, this`utteranceIssues, this`counters
      modifies consumer, consumer.ring`consumed, nativeBlock, nativeBlock.samples, monoScratch, resampledScratch
      modifies resampler, preRoll, preRoll.samples, preRoll.metadata
      modifies utterance, utterance.samples, utterance.metadata
      ensures Valid() && Bounded(setup, old(State()))
      ensures processed.None? <==> old(consumer.ring.Queue()) == []
      ensures processed.None? ==> State() == old(State()) && consumer.ring.Queue() == []
      ensures processed.Some? ==>
        var b := old(consumer.ring.Queue())[0];
        && consumer.ring.Queue() == old(consumer.ring.Queue())[1..]
        && State() == Process(setup, old(State()), b)
        && processed.value == ProcessedBlock(b.meta, old(nextOutputSampleIndex), OutputOf(setup, old(State()), b))
    {
      ghost var queue, head := consumer.ring.Queue(), consumer.ring.consumed;
      var popped := consumer.TryPop(nativeBlock);
      if !popped {
        return None;
      }
      assert queue[0] == consumer.ring.sent[head];
      var block := ProcessCaptured(queue[0]);
      processed := Some(block);
    }

    method BeginUtterance() returns (r: Result<(), StateError>)
      requires Valid()
      modifies this`utteranceActive, this`utteranceIssues, this`overflowsAtStart, this`counters
      modifies utterance, utterance.samples, utterance.metadata
      ensures Valid() && consumer.ring.Queue() == old(consumer.ring.Queue())
      ensures r.Ok? <==> !old(utteranceActive)
      ensures r.Err? ==> State() == old(State()) && r.error == AlreadyActive
      ensures r.Ok? ==> utteranceActive && utteranceIssues == {} && utterance.Contents() == old(preRoll.Contents())
      ensures r.Ok? ==> Begin(old(State()), consumer.ring.counters.overflows) == Ok(State())
    {
      if utteranceActive {
        return Err(AlreadyActive);
      }
      OpenOnPreRoll();
      r := Ok(());
    }

    method OpenOnPreRoll()
      requires Valid()
      modifies this`utteranceActive, this`utteranceIssues, this`overflowsAtStart, this`counters
      modifies utterance, utterance.samples, utterance.metadata
      ensures Valid() && consumer.ring.Queue() == old(consumer.ring.Queue())
      ensures State() == Begun(old(State()), consumer.ring.counters.overflows)
    {
      Restart();
      var copied := preRoll.CopyInto(utterance);
      counters := counters.(
        utterancesStarted := counters.utterancesStarted + 1, buffered := counters.buffered + copied);
      utteranceActive := true;
    }

    /** An empty utterance, its issues and its overflow count started anew. */
    method Restart()
      requires Valid()
      modifies this`utteranceIssues, this`overflowsAtStart
      modifies utterance, utterance.samples, utterance.metadata
      ensures Valid() && utterance.len == 0 && consumer.ring.Queue() == old(consumer.ring.Queue())
      ensures State() == old(State()).(
        utterance := [], issues := {}, overflowsAtStart := consumer.ring.counters.overflows)
    {
      utterance.Clear();
      assert preRoll.Contents() == old(preRoll.Contents());
      utteranceIssues := {};
      overflowsAtStart := consumer.ring.counters.overflows;
    }

    /** Drains whatever is queued, then seals the utterance. */
    method FinishUtterance() returns (r: Result<Completion, StateError>)
      requires Valid()
      modifies this`resampledLen, this`nextOutputSampleIndex, this`utteranceActive, this`utteranceIssues, this`counters
      modifies consumer, consumer.ring`consumed, nativeBlock, nativeBlock.samples, monoScratch, resampledScratch
      modifies resampler, preRoll, preRoll.samples, preRoll.metadata
      modifies utterance, utterance.samples, utterance.metadata
      ensures Valid() && Bounded(setup, old(State()))
      ensures r.Err? ==> r.error == NotActive && !old(utteranceActive) && State() == old(State())
      ensures r.Err? ==> consumer.ring.Queue() == old(consumer.ring.Queue())
      ensures r.Ok? ==>
        && old(utteranceActive) && !utteranceActive && consumer.ring.Queue() == []
        && r.value.framesBuffered == |utterance.Contents()|
        && r.value.drainedBlocks == |old(consumer.ring.Queue())|
        && Finish(setup, old(State()), old(consumer.ring.Queue()), consumer.ring.counters.overflows)
           == Ok((State(), r.value))
    {
      if !utteranceActive {
        return Err(NotActive);
      }
      var blocksBefore := counters.blocksProcessed;
      DrainQueue();
      var completion := Seal(counters.blocksProcessed - blocksBefore);
      r := Ok(completion);
    }

    method Seal(drained: nat) returns (completion: Completion)
      requires Valid()
      modifies this`utteranceActive, this`utteranceIssues, this`counters
      ensures Valid() && consumer.ring.Queue() == old(consumer.ring.Queue())
      ensures (State(), completion) == Sealed(old(State()), drained, consumer.ring.counters.overflows)
    {
      counters := counters.(finalDrain := Sat(counters.finalDrain + drained));
      if consumer.ring.counters.overflows > overflowsAtStart {
        utteranceIssues := utteranceIssues + {CallbackQueueOverflow};
      }
      utteranceActive := false;
      completion := Completion(utterance.len, drained, utteranceIssues);
    }

    /** Processes blocks until the ring is empty. */
    method DrainQueue()
      requires Valid()
      modifies this`resampledLen, this`nextOutputSampleIndex, this`utteranceIssues, this`counters
      modifies consumer, consumer.ring`consumed, nativeBlock, nativeBlock.samples, monoScratch, resampledScratch
      modifies resampler, preRoll, preRoll.samples, preRoll.metadata
      modifies utterance, utterance.samples, utterance.metadata
      ensures Valid() && Bounded(setup, old(State())) && consumer.ring.Queue() == []
      ensures State() == Drain(setup, old(State()), old(consumer.ring.Queue()))
      ensures counters.blocksProcessed == old(counters.blocksProcessed) + |old(consumer.ring.Queue())|
    {
      ghost var goal := Drain(setup, State(), consumer.ring.Queue());
      var more := true;
      while more
        invariant Valid() && Bounded(setup, State())
        invariant counters.blocksProcessed + |consumer.ring.Queue()|
          == old(counters.blocksProcessed) + |old(consumer.ring.Queue())|
        invariant Drain(setup, State(), consumer.ring.Queue()) == goal
        invariant !more ==> consumer.ring.Queue() == []
        decreases |consumer.ring.Queue()|, more
      {
        more := DrainOne();
      }
    }

    method DrainOne() returns (more: bool)
      requires Valid()
      modifies this`resampledLen, this`nextOutputSampleIndex, this`utteranceIssues, this`counters
      modifies consumer, consumer.ring`consumed, nativeBlock, nativeBlock.samples, monoScratch, resampledScratch
      modifies resampler, preRoll, preRoll.samples, preRoll.metadata
      modifies utterance, utterance.samples, utterance.metadata
      ensures Valid() && Bounded(setup, old(State())) && Bounded(setup, State())
      ensures Drain(setup, State(), consumer.ring.Queue()) == old(Drain(setup, State(), consumer.ring.Queue()))
      ensures more <==> old(consumer.ring.Queue()) != []
      ensures |consumer.ring.Queue()| == |old(consumer.ring.Queue())| - (if more then 1 else 0)
      ensures counters.blocksProcessed == old(counters.blocksProcessed) + (if more then 1 else 0)
    {
      var processed := ProcessNext();
      more := processed.Some?;
    }

    method EndUtterance()
      requires Valid()
      modifies this`utteranceActive
      ensures Valid() && State() == End(old(State()))
      ensures !utteranceActive && State() == old(State()).(active := false)
    {
      utteranceActive := false;
    }

    method ClearUtterance()
      requires Valid()
      modifies this`utteranceActive, this`utteranceIssues, utterance, utterance.samples, utterance.metadata
      ensures Valid() && State() == Clear(old(State()))
      ensures !utteranceActive && utterance.len == 0 && utteranceIssues == {}
      ensures preRoll.Contents() == old(preRoll.Contents()) && resampler.history == old(resampler.history)
    {
      utteranceActive := false;
      utterance.Clear();
      utteranceIssues := {};
    }
  }

  /** `build_audio_pipeline`: both ends of one ring, or the reason there is none. */
  method BuildAudioPipeline<T>(config: Config, lerp: Lerp<T>, average: Average<T>, zero: T)
      returns (r: Result<(CaptureCallback<T>, AudioWorker<T>), BuildError>)
    ensures r.Err? <==> BuildPlan(config).Err?
    ensures r.Err? ==> r.error == BuildPlan(config).error
    ensures r.Ok? ==>
      var (callback, worker) := r.value;
      && fresh(callback) && fresh(worker) && callback.ring == worker.consumer.ring
      && callback.Valid() && callback.capture == InitialCapture()
      && worker.Valid() && worker.State() == InitialWorker()
      && worker.setup == Setup(config, BuildPlan(config).value, lerp, average)
  {
    var plan := BuildPlan(config);
    if plan.Err? {
      return Err(plan.error);
    }
    var setup := Setup(config, plan.value, lerp, average);
    var ring := new Ring(config.native, zero);
    var callback := new CaptureCallback(ring);
    var worker := new AudioWorker(setup, ring, zero);
    r := Ok((callback, worker));
  }

  lemma ExactFrames(frames: nat, channels: Positive)
    ensures frames * channels / channels == frames && frames * channels % channels == 0
  {
    FloorAtLeast(frames, frames * channels, channels);
    FloorAtLeast(frames + 1, frames * channels, channels);
    Distribute(frames, 1, channels);
  }
}
