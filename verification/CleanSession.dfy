/** One concrete session from end to end: the hypotheses of the theorems about runs and
    utterances can be met, and what they conclude is not empty. */
module CleanSession {
  import opened Prelude
  import opened Callback
  import opened CallbackLaws
  import opened Format
  import opened Resampler
  import opened Buffers
  import opened WorkerSpec
  import opened Pipeline
  import opened Sessions

  /** 48 kHz mono in, 16 kHz out, 250 ms of pre-roll; all three limits allow half a minute. */
  const EXAMPLE := Config(Native(F32, 48_000, 1, 480, 8), 16_000, Select(0), 250, 480_000, 30_000, 17_280_000)

  lemma ExampleIsAccepted()
    ensures BuildPlan(EXAMPLE) ==
      Ok(Plan(480, 4_000, 162, 480_000, {DurationLimit, ByteLimit, BufferCapacity}))
  {
    assert CeilDiv(16_000 * 250, 1000) == 4_000;
    assert CeilDiv(480 * 16_000, 48_000) == 160;
    assert 16_000 * 30_000 / 1000 == 480_000 && 17_280_000 / BYTES_PER_FRAME == 480_000;
    assert MaxResampledFrames(480, RatesOf(EXAMPLE)) == Some(162);
    assert CheckedMul(480, 1) == Some(480) && CheckedMul(16_000, 250) == Some(4_000_000);
    assert CheckedMul(16_000, 30_000) == Some(480_000_000);
    var plan := BuildPlan(EXAMPLE).value;
    assert plan.utteranceLimit == 480_000;
    assert plan.preRollFrames == 4_000 && plan.nativeSamples == 480 && plan.resampledCapacity == 162;
    assert plan.limitIssues == {DurationLimit, ByteLimit, BufferCapacity};
  }

  /** One block of one unflagged frame, from a fresh producer. */
  lemma OneFrameCaptured<T>(x: T) returns (call: Call<T>, b: Block<T>)
    ensures b.samples == [x] && b.frames == 1 && b.meta.discontinuity == {}
    ensures var native := EXAMPLE.native;
      var entered := Enter(native, InitialCapture(), call);
      && entered.producer.flight.Some? && FlightFits(native, entered.producer.flight.value)
      && entered.enqueued == [] && entered.producer.counters.overflows == 0
      && var d := Publish(native, entered);
      d.enqueued == [b] && d.producer.flight.None? && d.producer.counters.overflows == 0
  {
    call := Call(F32, [x], Stamp(0, 0, {}));
    var entered := Enter(EXAMPLE.native, InitialCapture(), call);
    EnterFits(EXAMPLE.native, InitialCapture(), call);
    b := NextBlock(EXAMPLE.native, entered.producer);
  }

  lemma OneSample<T>(s: Setup<T>, b: Block<T>, x: T)
    requires s.config == EXAMPLE && SetupOk(s)
    requires b.samples == [x] && b.frames == 1 && b.meta.discontinuity == {}
    ensures Samples(Produced(s, [], [b])) == [x]
  {
    assert [b][..0] == [];
    assert Concat([b]) == [x];
    assert [x][..1] == [x] && [x][1..] == [];
    assert MonoOf(s, [x]) == [x];
    assert Interleaved(s.config.native, [b]);
    ProducedUnflagged(s, [], [b]);
    assert [] + [x] == [x];
  }

  /** Begin, hear the callback, publish its block. */
  lemma OneFrameRun<T>(s: Setup<T>, call: Call<T>, b: Block<T>)
      returns (states: seq<Pipeline<T>>, ops: seq<Op<T>>)
    requires s.config == EXAMPLE && SetupOk(s)
    requires var entered := Enter(EXAMPLE.native, InitialCapture(), call);
      && entered.producer.flight.Some? && FlightFits(EXAMPLE.native, entered.producer.flight.value)
      && entered.enqueued == [] && entered.producer.counters.overflows == 0
      && var d := Publish(EXAMPLE.native, entered);
      d.enqueued == [b] && d.producer.flight.None? && d.producer.counters.overflows == 0
    ensures |ops| == 2 && IsRun(s, states, ops)
    ensures Ready(s, Start<T>()) && states[0] == Do(s, Start(), BeginUtterance)
    ensures forall op <- ops :: Leaves(op)
    ensures var p := states[2];
      && p.capture.producer.flight.None? && p.capture.enqueued == [b] && Taken(p) == 0
      && Overflows(p) == 0
  {
    var start: Pipeline<T> := Start();
    var begun := Do(s, start, BeginUtterance);
    var entered := Do(s, begun, Arrive(call));
    var published := Do(s, entered, PublishOne);
    states, ops := [begun, entered, published], [Arrive(call), PublishOne];
  }

  lemma OneFrameFits<T>(s: Setup<T>, produced: seq<Timed<T>>, x: T)
    requires SetupOk(s) && Samples(produced) == [x]
    ensures Rejected(s, InitialWorker<T>(), |produced|) == 0
    ensures Samples(FirstOf(s.plan.utteranceLimit, [] + produced)) == [x]
  {
    assert |produced| == 1;
    assert [] + produced == produced;
  }

  /** For any sample there is a session that hears it, reports no issue and so, by
      `LosslessWhenClean`, loses nothing: its utterance is that sample. */
  lemma CleanSessionExists<T>(lerp: Lerp<T>, average: Average<T>, x: T)
      returns (s: Setup<T>, states: seq<Pipeline<T>>, ops: seq<Op<T>>)
    ensures BuildPlan(s.config) == Ok(s.plan) && Inv(s, Start())
    ensures IsRun(s, states, ops) && states[0] == Do(s, Start(), BeginUtterance)
    ensures forall op <- ops :: Leaves(op)
    ensures var p := states[|ops|];
      && p.capture.producer.flight.None? && Ready(s, p)
      && var r := Finish(s, p.worker, Queue(p), Overflows(p));
      r.Ok? && r.value.1.issues == {} && Samples(r.value.0.utterance) == [x]
  {
    ExampleIsAccepted();
    s := Setup(EXAMPLE, BuildPlan(EXAMPLE).value, lerp, average);
    PlanSuffices(s, 0, 0);
    StartInv(s);
    var call, b := OneFrameCaptured(x);
    states, ops := OneFrameRun(s, call, b);
    var a, p := Start(), states[2];
    UtteranceReport(s, a, states, ops);
    assert Covered(a, p) == [b];
    OneSample(s, b, x);
    OneFrameFits(s, ProducedSince(s, a, p), x);
    NoIssues(Finish(s, p.worker, Queue(p), Overflows(p)).value.1.issues);
  }

  lemma NoIssues(issues: set<Issue>)
    requires CallbackQueueOverflow !in issues && Discontinuity !in issues
    requires forall l <- {DurationLimit, ByteLimit, BufferCapacity} :: l !in issues
    ensures issues == {}
  {
    forall i: Issue
      ensures i !in issues
    {
      assert i.DurationLimit? || i.ByteLimit? || i.BufferCapacity? || i.CallbackQueueOverflow? || i.Discontinuity?;
      assert DurationLimit !in issues && ByteLimit !in issues && BufferCapacity !in issues;
    }
  }
}
