/** What the audio worker of processing.rs does, as functions on values. */
module WorkerSpec {
  import opened Prelude
  import opened Callback
  import opened Format
  import opened Resampler
  import opened Buffers

  datatype Config = Config(
    native: Native, targetRate: Positive, policy: ChannelPolicy, preRollMs: nat,
    utteranceCapacity: Positive, maxUtteranceMs: Positive, maxBufferedBytes: Positive)

  datatype Issue = DurationLimit | ByteLimit | BufferCapacity | CallbackQueueOverflow | Discontinuity

  datatype BuildError =
    | InvalidChannelPolicy(error: FormatError)
    | PreRollOutsideContract(milliseconds: nat)
    | CapacityOverflow
    | UtteranceCannotHoldPreRoll(required: nat, available: nat)

  /** The capacities `build_audio_pipeline` derives before it allocates anything. */
  datatype Plan = Plan(
    nativeSamples: nat, preRollFrames: nat, resampledCapacity: nat, utteranceLimit: nat, limitIssues: set<Issue>)

  /** A sample and its metadata: a 32-bit float and three 64-bit words with a flag byte, padded. */
  const BYTES_PER_FRAME: nat := 4 + 32

  function CheckedMul(a: nat, b: nat): Option<u64> {
    if a * b <= U64_MAX then Some(a * b) else None
  }

  function MaxResampledFrames(frames: nat, rates: Rates): Option<u64> {
    var n := CeilDiv(frames * rates.target, rates.source) + 2;
    if n <= U64_MAX then Some(n) else None
  }

  function RatesOf(c: Config): Rates {
    Rates(c.native.rate, c.targetRate)
  }

  function BuildPlan(c: Config): Result<Plan, BuildError> {
    var policy := Validate(c.policy, c.native.channels);
    if policy.Err? then Err(InvalidChannelPolicy(policy.error))
    else if !(250 <= c.preRollMs <= 500) then Err(PreRollOutsideContract(c.preRollMs))
    else
      var nativeSamples := CheckedMul(c.native.framesPerBlock, c.native.channels);
      var preRollProduct := CheckedMul(c.targetRate, c.preRollMs);
      if nativeSamples.None? || preRollProduct.None? then Err(CapacityOverflow)
      else
        var preRoll := CeilDiv(preRollProduct.value, 1000);
        if c.utteranceCapacity < preRoll then Err(UtteranceCannotHoldPreRoll(preRoll, c.utteranceCapacity))
        else
          var resampled := MaxResampledFrames(c.native.framesPerBlock, RatesOf(c));
          var durationProduct := CheckedMul(c.targetRate, c.maxUtteranceMs);
          if resampled.None? || durationProduct.None? then Err(CapacityOverflow)
          else
            var duration := durationProduct.value / 1000;
            var bytes := c.maxBufferedBytes / BYTES_PER_FRAME;
            var limit := Min(Min(c.utteranceCapacity, duration), bytes);
            if limit < preRoll then Err(UtteranceCannotHoldPreRoll(preRoll, limit))
            else
              Ok(Plan(nativeSamples.value, preRoll, resampled.value, limit,
                (if limit == duration then {DurationLimit} else {})
                + (if limit == bytes then {ByteLimit} else {})
                + (if limit == c.utteranceCapacity then {BufferCapacity} else {})))
  }

  /** How many frames each limit allows on its own. */
  function Allows(c: Config, limit: Issue): nat
    requires limit in {DurationLimit, ByteLimit, BufferCapacity}
  {
    match limit
    case DurationLimit => c.targetRate * c.maxUtteranceMs / 1000
    case ByteLimit => c.maxBufferedBytes / BYTES_PER_FRAME
    case BufferCapacity => c.utteranceCapacity
  }

  /** The limits blamed are the least ones, all of them, and there is at least one. */
  lemma LimitsAreHonest(c: Config)
    requires BuildPlan(c).Ok?
    ensures var plan := BuildPlan(c).value;
      && plan.limitIssues != {}
      && plan.limitIssues <= {DurationLimit, ByteLimit, BufferCapacity}
      && forall l <- {DurationLimit, ByteLimit, BufferCapacity} ::
           plan.utteranceLimit <= Allows(c, l) && (l in plan.limitIssues <==> plan.utteranceLimit == Allows(c, l))
  {
    var plan := BuildPlan(c).value;
    assert DurationLimit in plan.limitIssues || ByteLimit in plan.limitIssues || BufferCapacity in plan.limitIssues;
  }

  /** A configuration is accepted exactly when the channel exists, the pre-roll is within
      its contract, every capacity can be represented and every limit leaves room for the
      pre-roll; the pre-roll is the fewest frames that last as long as was asked. */
  lemma AcceptedExactly(c: Config)
    ensures BuildPlan(c).Ok? <==>
      && PolicyFits(c.policy, c.native.channels)
      && 250 <= c.preRollMs <= 500
      && c.native.framesPerBlock * c.native.channels <= U64_MAX
      && c.targetRate * c.preRollMs <= U64_MAX
      && c.targetRate * c.maxUtteranceMs <= U64_MAX
      && CeilDiv(c.native.framesPerBlock * c.targetRate, c.native.rate) + 2 <= U64_MAX
      && forall l <- {DurationLimit, ByteLimit, BufferCapacity} :: c.targetRate * c.preRollMs <= Allows(c, l) * 1000
  {
    RoomForPreRoll(c);
  }

  /** Why a configuration is refused: the policy first, then the pre-roll's length; a capacity
      only if some product does not fit; and for want of room only if the least of the limits
      holds less than the pre-roll, which is then named with a limit that is too small. */
  lemma RefusedFor(c: Config)
    requires BuildPlan(c).Err?
    ensures var product, error := c.targetRate * c.preRollMs, BuildPlan(c).error;
      && (error.InvalidChannelPolicy? <==> !PolicyFits(c.policy, c.native.channels))
      && (error.PreRollOutsideContract? <==>
            PolicyFits(c.policy, c.native.channels) && !(250 <= c.preRollMs <= 500))
      && (error.PreRollOutsideContract? ==> error.milliseconds == c.preRollMs)
      && (error == CapacityOverflow ==>
            || c.native.framesPerBlock * c.native.channels > U64_MAX || product > U64_MAX
            || c.targetRate * c.maxUtteranceMs > U64_MAX
            || CeilDiv(c.native.framesPerBlock * c.targetRate, c.native.rate) + 2 > U64_MAX)
      && (error.UtteranceCannotHoldPreRoll? ==>
            && error.available * 1000 < product <= error.required * 1000 < product + 1000
            && exists l <- {DurationLimit, ByteLimit, BufferCapacity} :: error.available == Allows(c, l))
  {
    var product, error := c.targetRate * c.preRollMs, BuildPlan(c).error;
    CeilIsLeast(product);
    if error.UtteranceCannotHoldPreRoll? {
      CeilAtMost(product, 1000, error.available);
      var limits := {DurationLimit, ByteLimit, BufferCapacity};
      assert DurationLimit in limits && ByteLimit in limits && BufferCapacity in limits;
      assert error.available == Allows(c, BufferCapacity) || error.available == Allows(c, DurationLimit)
        || error.available == Allows(c, ByteLimit);
    }
  }

  lemma CeilIsLeast(n: nat)
    ensures n <= CeilDiv(n, 1000) * 1000 < n + 1000
  {
    var up := CeilDiv(n, 1000);
    CeilAtMost(n, 1000, up);
    if up > 0 { CeilAtMost(n, 1000, up - 1); }
  }

  /** The pre-roll is the fewest frames that last as long as was asked. */
  lemma PreRollIsLeast(c: Config, n: nat)
    requires BuildPlan(c).Ok?
    ensures BuildPlan(c).value.preRollFrames <= n <==> c.targetRate * c.preRollMs <= n * 1000
  {
    CeilAtMost(c.targetRate * c.preRollMs, 1000, n);
  }

  lemma RoomForPreRoll(c: Config)
    ensures var product := c.targetRate * c.preRollMs;
      (forall l <- {DurationLimit, ByteLimit, BufferCapacity} :: product <= Allows(c, l) * 1000) <==>
        && CeilDiv(product, 1000) <= Allows(c, DurationLimit)
        && CeilDiv(product, 1000) <= Allows(c, ByteLimit)
        && CeilDiv(product, 1000) <= Allows(c, BufferCapacity)
  {
    var product, limits := c.targetRate * c.preRollMs, {DurationLimit, ByteLimit, BufferCapacity};
    forall l <- limits
      ensures product <= Allows(c, l) * 1000 <==> CeilDiv(product, 1000) <= Allows(c, l)
    {
      CeilAtMost(product, 1000, Allows(c, l));
    }
    assert DurationLimit in limits && ByteLimit in limits && BufferCapacity in limits;
  }

  datatype Setup<!T> = Setup(config: Config, plan: Plan, lerp: Lerp<T>, average: Average<T>)

  /** What the rest of the pipeline relies on. */
  predicate SetupOk<T>(s: Setup<T>) {
    && PolicyFits(s.config.policy, s.config.native.channels)
    && 0 < s.plan.preRollFrames <= s.plan.utteranceLimit
    && s.plan.nativeSamples == s.config.native.framesPerBlock * s.config.native.channels
    && s.plan.resampledCapacity
       == CeilDiv(s.config.native.framesPerBlock * s.config.targetRate, s.config.native.rate) + 2
    && {} != s.plan.limitIssues <= {DurationLimit, ByteLimit, BufferCapacity}
  }

  /** An accepted configuration can never meet a failed `expect` downstream: the policy
      fits, the pre-roll is a proper ring that fits the utterance, and whatever came
      before, every block's output fits the scratch. */
  lemma PlanSuffices<T>(s: Setup<T>, history: nat, chunk: nat)
    requires BuildPlan(s.config) == Ok(s.plan)
    requires chunk <= s.config.native.framesPerBlock
    ensures SetupOk(s)
    ensures Count(RatesOf(s.config), history + chunk) - Count(RatesOf(s.config), history) <= s.plan.resampledCapacity
  {
    LimitsAreHonest(s.config);
    ScratchSuffices(RatesOf(s.config), history, chunk, s.config.native.framesPerBlock);
    MulMonotone(1, s.config.targetRate, s.config.preRollMs);
    CeilAtMost(s.config.targetRate * s.config.preRollMs, 1000, 0);
  }

  datatype WorkerCounters = WorkerCounters(
    blocksProcessed: nat, nativeFrames: nat, resampledFrames: nat, discontinuousBlocks: nat, resets: nat,
    preRollOverwritten: nat, utterancesStarted: nat, buffered: nat, rejected: nat, limitEvents: nat, finalDrain: nat)

  const ZERO_WORKER_COUNTERS := WorkerCounters(0, 0, 0, 0, 0, 0, 0, 0, 0, 0, 0)

  /** The worker's state; `run` is the mono signal since the resampler last reset. */
  datatype Worker<T> = Worker(
    run: seq<T>, nextIndex: u64, preRoll: seq<Timed<T>>, utterance: seq<Timed<T>>,
    active: bool, issues: set<Issue>, overflowsAtStart: nat, counters: WorkerCounters)

  function InitialWorker<T>(): Worker<T> {
    Worker([], 0, [], [], false, {}, 0, ZERO_WORKER_COUNTERS)
  }

  function MonoOf<T>(s: Setup<T>, samples: seq<T>): (mono: seq<T>)
    requires PolicyFits(s.config.policy, s.config.native.channels)
    ensures |mono| == |samples| / s.config.native.channels
  {
    Mono(s.config.native.channels, s.config.policy, s.average, samples)
  }

  function RunBefore<T>(w: Worker<T>, b: Block<T>): seq<T> {
    if b.meta.discontinuity != {} then [] else w.run
  }

  function OutputOf<T>(s: Setup<T>, w: Worker<T>, b: Block<T>): seq<T>
    requires PolicyFits(s.config.policy, s.config.native.channels)
  {
    Added(RatesOf(s.config), s.lerp, RunBefore(w, b), MonoOf(s, b.samples))
  }

  function TimedOf<T>(s: Setup<T>, w: Worker<T>, b: Block<T>): seq<Timed<T>>
    requires PolicyFits(s.config.policy, s.config.native.channels)
  {
    Stamped(OutputOf(s, w, b), b.meta, w.nextIndex, s.config.targetRate)
  }

  /** The block's own flags, before any output is stored. */
  function Flagged<T>(w: Worker<T>, b: Block<T>): Worker<T> {
    if b.meta.discontinuity == {} then w
    else w.(run := [],
            issues := if w.active then w.issues + {Discontinuity} else w.issues,
            counters := w.counters.(
              discontinuousBlocks := w.counters.discontinuousBlocks + 1, resets := w.counters.resets + 1))
  }

  predicate Bounded<T>(s: Setup<T>, w: Worker<T>) {
    |w.preRoll| <= s.plan.preRollFrames && |w.utterance| <= s.plan.utteranceLimit
  }

  /** Output stored into the pre-roll and, when one is active, the utterance. */
  function Retained<T>(s: Setup<T>, w: Worker<T>, timed: seq<Timed<T>>): Worker<T>
    requires Bounded(s, w)
  {
    var preRoll := LastOf(s.plan.preRollFrames, w.preRoll + timed);
    var overwritten := w.counters.preRollOverwritten + (|w.preRoll| + |timed| - |preRoll|);
    if !w.active then w.(preRoll := preRoll, counters := w.counters.(preRollOverwritten := overwritten))
    else
      var utterance := FirstOf(s.plan.utteranceLimit, w.utterance + timed);
      var rejected := |w.utterance| + |timed| - |utterance|;
      w.(preRoll := preRoll,
         utterance := utterance,
         issues := if rejected > 0 then w.issues + s.plan.limitIssues else w.issues,
         counters := w.counters.(
           preRollOverwritten := overwritten,
           buffered := w.counters.buffered + (|utterance| - |w.utterance|),
           rejected := w.counters.rejected + rejected,
           limitEvents := if rejected > 0 && w.issues == {} then w.counters.limitEvents + 1
                          else w.counters.limitEvents))
  }

  /** The block's flags taken in and its mono signal appended to the resampler's run. */
  function Heard<T>(s: Setup<T>, w: Worker<T>, b: Block<T>): Worker<T>
    requires PolicyFits(s.config.policy, s.config.native.channels)
  {
    Flagged(w, b).(run := RunBefore(w, b) + MonoOf(s, b.samples))
  }

  function Process<T>(s: Setup<T>, w: Worker<T>, b: Block<T>): Worker<T>
    requires PolicyFits(s.config.policy, s.config.native.channels)
    requires Bounded(s, w)
  {
    var timed := TimedOf(s, w, b);
    Counted(Retained(s, Heard(s, w, b), timed), b.frames, |timed|)
  }

  /** The bookkeeping at the end of a block. */
  function Counted<T>(w: Worker<T>, frames: nat, produced: nat): Worker<T> {
    w.(nextIndex := Sat(w.nextIndex + produced),
       counters := w.counters.(
         blocksProcessed := w.counters.blocksProcessed + 1,
         nativeFrames := w.counters.nativeFrames + frames,
         resampledFrames := w.counters.resampledFrames + produced))
  }

  datatype StateError = AlreadyActive | NotActive

  /** An idle worker opened on a copy of its pre-roll. */
  function Begun<T>(w: Worker<T>, overflows: nat): Worker<T> {
    w.(utterance := w.preRoll, issues := {}, overflowsAtStart := overflows, active := true,
       counters := w.counters.(
         utterancesStarted := w.counters.utterancesStarted + 1,
         buffered := w.counters.buffered + |w.preRoll|))
  }

  function Begin<T>(w: Worker<T>, overflows: nat): Result<Worker<T>, StateError> {
    if w.active then Err(AlreadyActive) else Ok(Begun(w, overflows))
  }

  function Drain<T>(s: Setup<T>, w: Worker<T>, blocks: seq<Block<T>>): (d: Worker<T>)
    requires SetupOk(s) && Bounded(s, w)
    ensures Bounded(s, d)
    decreases |blocks|
  {
    if blocks == [] then w else Drain(s, Process(s, w, blocks[0]), blocks[1..])
  }

  /** Draining counts every block, and neither ends the utterance nor forgets where its
      overflow count began. */
  lemma {:induction false} DrainEffect<T>(s: Setup<T>, w: Worker<T>, blocks: seq<Block<T>>)
    requires SetupOk(s) && Bounded(s, w)
    ensures Drain(s, w, blocks).overflowsAtStart == w.overflowsAtStart
    ensures Drain(s, w, blocks).active == w.active
    ensures Drain(s, w, blocks).counters.blocksProcessed == w.counters.blocksProcessed + |blocks|
    decreases |blocks|
  {
    if blocks != [] { DrainEffect(s, Process(s, w, blocks[0]), blocks[1..]); }
  }

  datatype Completion = Completion(framesBuffered: nat, drainedBlocks: nat, issues: set<Issue>)

  /** A drained worker closed, its overflow verdict taken. */
  function Sealed<T>(d: Worker<T>, drained: nat, overflows: nat): (Worker<T>, Completion) {
    var issues := if overflows > d.overflowsAtStart then d.issues + {CallbackQueueOverflow} else d.issues;
    (d.(active := false, issues := issues,
        counters := d.counters.(finalDrain := Sat(d.counters.finalDrain + drained))),
     Completion(|d.utterance|, drained, issues))
  }

  function Finish<T>(s: Setup<T>, w: Worker<T>, blocks: seq<Block<T>>, overflows: nat)
      : Result<(Worker<T>, Completion), StateError>
    requires SetupOk(s) && Bounded(s, w)
  {
    if !w.active then Err(NotActive)
    else Ok(Sealed(Drain(s, w, blocks), |blocks|, overflows))
  }

  function End<T>(w: Worker<T>): Worker<T> {
    w.(active := false)
  }

  function Clear<T>(w: Worker<T>): Worker<T> {
    w.(active := false, utterance := [], issues := {})
  }
}
