/** One utterance from begin to finish: what it holds and what its report means. */
module Sessions {
  import opened Prelude
  import opened Callback
  import opened CallbackLaws
  import opened Resampler
  import opened Buffers
  import opened WorkerSpec
  import opened Pipeline
  import opened ChunkInvariance

  /** What the blocks `tail`, processed after `base`, made the worker produce. */
  function Produced<T>(s: Setup<T>, base: seq<Block<T>>, tail: seq<Block<T>>): seq<Timed<T>>
    requires SetupOk(s)
  {
    EmissionExtends(s, base, tail);
    EmittedOf(s, base + tail)[|EmittedOf(s, base)|..]
  }

  lemma {:induction false} EmissionExtends<T>(s: Setup<T>, base: seq<Block<T>>, tail: seq<Block<T>>)
    requires SetupOk(s)
    ensures EmittedOf(s, base) <= EmittedOf(s, base + tail)
  {
    if tail == [] {
      assert base + tail == base;
    } else {
      EmissionExtends(s, base, tail[..|tail| - 1]);
      assert (base + tail)[..|base + tail| - 1] == base + tail[..|tail| - 1];
    }
  }

  /** Where anything ever raised is now: owed by the producer, on the queued block it was
      due on, or on the first output sample of that block, once it has been processed. */
  lemma EveryFlagIsSomewhere<T>(s: Setup<T>, p: Pipeline<T>, r: Raise)
    requires Inv(s, p) && r in p.capture.raised && r.flags != {}
    ensures
      if r.at >= |p.capture.enqueued| then r.flags <= Owed(p.capture.producer)
      else if r.at >= Taken(p) then r.flags <= Queue(p)[r.at - Taken(p)].meta.discontinuity
      else
        var k := |EmittedOf(s, p.capture.enqueued[..r.at])|;
        k < |EmittedBy(s, p)| && r.flags <= EmittedBy(s, p)[k].meta.discontinuity
  {
    NoFlagLost(s.config.native, p.capture, r);
    if r.at < Taken(p) {
      BlockIsNotEmpty(s.config.native, p.capture, r.at);
      FlaggedBlockIsHeard(s, p.capture.enqueued[..Taken(p)], r.at);
      SamePrefix(p.capture.enqueued[..Taken(p)], p.capture.enqueued, r.at);
    }
  }

  lemma BlockIsNotEmpty<T>(native: Native, c: Capture<T>, i: nat)
    requires Shaped(native, c) && i < |c.enqueued|
    ensures |c.enqueued[i].samples| >= native.channels
  {
    MulMonotone(1, c.enqueued[i].frames, native.channels);
  }

  lemma FlaggedBlockIsHeard<T>(s: Setup<T>, blocks: seq<Block<T>>, i: nat)
    requires SetupOk(s) && i < |blocks|
    requires blocks[i].meta.discontinuity != {} && |blocks[i].samples| >= s.config.native.channels
    ensures var k := |EmittedOf(s, blocks[..i])|;
      k < |EmittedOf(s, blocks)| && EmittedOf(s, blocks)[k].meta.discontinuity == blocks[i].meta.discontinuity
  {
    FlaggedBlockEmits(s, blocks[..i], blocks[i]);
    AroundOne(blocks, i);
    EmissionExtends(s, blocks[..i] + [blocks[i]], blocks[i + 1..]);
  }

  lemma AroundOne<T>(blocks: seq<T>, i: nat)
    requires i < |blocks|
    ensures blocks[..i] + [blocks[i]] + blocks[i + 1..] == blocks
  {
  }

  lemma FlaggedBlockEmits<T>(s: Setup<T>, init: seq<Block<T>>, b: Block<T>)
    requires SetupOk(s)
    requires b.meta.discontinuity != {} && |b.samples| >= s.config.native.channels
    ensures var before, after := EmittedOf(s, init), EmittedOf(s, init + [b]);
      |before| < |after| && after[|before|].meta.discontinuity == b.meta.discontinuity
  {
    assert (init + [b])[..|init|] == init;
    FirstEmission(s, init, |EmittedOf(s, init)|, b);
  }

  lemma FirstEmission<T>(s: Setup<T>, init: seq<Block<T>>, before: nat, b: Block<T>)
    requires SetupOk(s)
    requires b.meta.discontinuity != {} && |b.samples| >= s.config.native.channels
    ensures var emission := LastEmission(s, init, before, b);
      |emission| > 0 && emission[0].meta.discontinuity == b.meta.discontinuity
  {
    FloorAtLeast(1, |b.samples|, s.config.native.channels);
  }

  /** How many samples an utterance over `produced` had no room for. */
  function Rejected<T>(s: Setup<T>, from: Worker<T>, produced: nat): nat {
    var wanted := |from.preRoll| + produced;
    if wanted <= s.plan.utteranceLimit then 0 else wanted - s.plan.utteranceLimit
  }

  /** A limit was the first thing to go wrong: some block was the first to find no room, and
      neither it nor any block before it was flagged. */
  function LimitCame<T>(s: Setup<T>, from: Worker<T>, base: seq<Block<T>>, tail: seq<Block<T>>): bool
    requires SetupOk(s)
  {
    tail != [] &&
    (LimitCame(s, from, base, tail[..|tail| - 1])
     || (Rejected(s, from, |Produced(s, base, tail[..|tail| - 1])|) == 0
         && Rejected(s, from, |Produced(s, base, tail)|) > 0 && !AnyFlagged(tail)))
  }

  /** The worker `w`, begun as `from` and having produced `produced` since. */
  ghost predicate Recorded<T>(s: Setup<T>, from: Worker<T>, overflows: nat,
                              produced: seq<Timed<T>>, flagged: bool, limited: bool, w: Worker<T>)
  {
    var rejected := Rejected(s, from, |produced|);
    && w.active && w.overflowsAtStart == overflows
    && w.utterance == FirstOf(s.plan.utteranceLimit, from.preRoll + produced)
    && w.issues == (if flagged then {Discontinuity} else {}) + (if rejected > 0 then s.plan.limitIssues else {})
    && w.counters.buffered == from.counters.buffered + |w.utterance|
    && w.counters.rejected == from.counters.rejected + rejected
    && w.counters.limitEvents == from.counters.limitEvents + (if limited then 1 else 0)
    && (limited ==> rejected > 0)
  }

  ghost predicate Recording<T>(s: Setup<T>, from: Worker<T>, overflows: nat,
                               base: seq<Block<T>>, tail: seq<Block<T>>, w: Worker<T>)
    requires SetupOk(s)
  {
    Recorded(s, from, overflows, Produced(s, base, tail), AnyFlagged(tail), LimitCame(s, from, base, tail), w)
  }

  lemma BeginRecords<T>(s: Setup<T>, from: Worker<T>, overflows: nat, base: seq<Block<T>>)
    requires SetupOk(s) && Bounded(s, from)
    ensures Recording(s, from, overflows, base, [], Begun(from, overflows))
  {
    assert base + [] == base;
    assert from.preRoll + Produced(s, base, []) == from.preRoll;
  }

  /** One block further, whatever it is. */
  lemma RecordsOn<T>(s: Setup<T>, from: Worker<T>, overflows: nat, produced: seq<Timed<T>>, flagged: bool,
                     limited: bool, w: Worker<T>, timed: seq<Timed<T>>, d: Worker<T>, flags: set<Issue>)
    requires SetupOk(s) && Recorded(s, from, overflows, produced, flagged, limited, w)
    requires flags == {} || flags == {Discontinuity}
    requires var rejected := |w.utterance| + |timed| - |d.utterance|;
      && d.active && d.overflowsAtStart == w.overflowsAtStart
      && d.utterance == FirstOf(s.plan.utteranceLimit, w.utterance + timed)
      && d.issues == w.issues + flags + (if rejected > 0 then s.plan.limitIssues else {})
      && d.counters.buffered == w.counters.buffered + |d.utterance| - |w.utterance|
      && d.counters.rejected == w.counters.rejected + rejected
      && d.counters.limitEvents == w.counters.limitEvents + (if rejected > 0 && w.issues + flags == {} then 1 else 0)
    ensures var first := Rejected(s, from, |produced|) == 0 && Rejected(s, from, |produced + timed|) > 0;
      Recorded(s, from, overflows, produced + timed, flagged || flags != {},
        limited || (first && !(flagged || flags != {})), d)
  {
    FirstOfAppend(s.plan.utteranceLimit, from.preRoll + produced, timed);
    Regroup(from.preRoll, produced, timed);
    var limits := s.plan.limitIssues;
    var before, after := Rejected(s, from, |produced|), Rejected(s, from, |produced + timed|);
    assert after == before + (|w.utterance| + |timed| - |d.utterance|);
    assert d.issues == (if flagged || flags != {} then {Discontinuity} else {}) + (if after > 0 then limits else {});
  }

  lemma ProducedGrows<T>(s: Setup<T>, base: seq<Block<T>>, tail: seq<Block<T>>, w: Worker<T>, b: Block<T>)
    requires SetupOk(s) && Bounded(s, w) && WorkerInv(s, w, base + tail)
    ensures Produced(s, base, tail + [b]) == Produced(s, base, tail) + TimedOf(s, w, b)
  {
    ProcessKeeps(s, w, base + tail, b);
    EmissionExtends(s, base, tail);
    Regroup(base, tail, [b]);
    AfterPrefix(EmittedOf(s, base), EmittedOf(s, base + tail), TimedOf(s, w, b));
  }

  lemma AfterPrefix<T>(a: seq<T>, b: seq<T>, c: seq<T>)
    requires a <= b
    ensures (b + c)[|a|..] == b[|a|..] + c
  {
  }

  lemma FlaggedGrows<T>(tail: seq<Block<T>>, b: Block<T>)
    ensures AnyFlagged(tail + [b]) == (AnyFlagged(tail) || b.meta.discontinuity != {})
  {
    assert (tail + [b])[..|tail|] == tail;
  }

  lemma BlockRecords<T>(s: Setup<T>, from: Worker<T>, overflows: nat,
                        base: seq<Block<T>>, tail: seq<Block<T>>, w: Worker<T>, b: Block<T>)
    requires SetupOk(s) && Bounded(s, w) && WorkerInv(s, w, base + tail)
    requires Recording(s, from, overflows, base, tail, w)
    ensures Recording(s, from, overflows, base, tail + [b], Process(s, w, b))
  {
    ProducedGrows(s, base, tail, w, b);
    FlaggedGrows(tail, b);
    ProcessActive(s, w, b);
    ProcessEffect(s, w, b);
    assert (tail + [b])[..|tail|] == tail;
    RecordsOn(s, from, overflows, Produced(s, base, tail), AnyFlagged(tail), LimitCame(s, from, base, tail),
      w, TimedOf(s, w, b), Process(s, w, b),
      if b.meta.discontinuity == {} then {} else {Discontinuity});
  }

  // ---- runs that record ----

  function Overflows<T>(p: Pipeline<T>): nat {
    p.capture.producer.counters.overflows
  }

  /** Operations that leave a recording open. */
  predicate Leaves<T>(op: Op<T>) {
    !(op.FinishUtterance? || op.EndUtterance? || op.ClearUtterance? || op.Seal?)
  }

  /** What a session needs of its two ends, without their invariants. */
  ghost predicate Follows<T>(s: Setup<T>, a: Pipeline<T>, all: seq<Block<T>>, w: Worker<T>)
    requires SetupOk(s)
  {
    var i, n := Taken(a), w.counters.blocksProcessed;
    && a.capture.enqueued <= all && i <= |a.capture.enqueued| && i <= n <= |all|
    && Recording(s, a.worker, Overflows(a), a.capture.enqueued[..i], all[i..n], w)
  }

  /** `p` is on its way from the moment `a`, at which an utterance began. */
  ghost predicate InSession<T>(s: Setup<T>, a: Pipeline<T>, p: Pipeline<T>) {
    && Inv(s, a) && Inv(s, p)
    && Follows(s, a, p.capture.enqueued, p.worker)
  }

  lemma SessionOpens<T>(s: Setup<T>, a: Pipeline<T>)
    requires Inv(s, a) && !a.worker.active
    ensures InSession(s, a, Do(s, a, BeginUtterance))
  {
    StepKeeps(s, a, BeginUtterance);
    BeginRecords(s, a.worker, Overflows(a), a.capture.enqueued[..Taken(a)]);
    assert a.capture.enqueued[Taken(a)..Taken(a)] == [];
  }

  /** Recording carries on over block `n` of one growing sequence. */
  lemma RecordNext<T>(s: Setup<T>, from: Worker<T>, overflows: nat, all: seq<Block<T>>, i: nat, n: nat, w: Worker<T>)
    requires SetupOk(s) && Bounded(s, w) && i <= n < |all| && WorkerInv(s, w, all[..n])
    requires Recording(s, from, overflows, all[..i], all[i..n], w)
    ensures Recording(s, from, overflows, all[..i], all[i..n + 1], Process(s, w, all[n]))
  {
    Pieces(all, i, n);
    BlockRecords(s, from, overflows, all[..i], all[i..n], w, all[n]);
  }

  lemma Pieces<T>(all: seq<T>, i: nat, n: nat)
    requires i <= n < |all|
    ensures all[..n] == all[..i] + all[i..n] && all[i..n + 1] == all[i..n] + [all[n]]
  {
  }

  lemma {:induction false} RecordRest<T>(
      s: Setup<T>, from: Worker<T>, overflows: nat, all: seq<Block<T>>, i: nat, n: nat, w: Worker<T>)
    requires SetupOk(s) && Bounded(s, w) && i <= n <= |all| && WorkerInv(s, w, all[..n])
    requires Recording(s, from, overflows, all[..i], all[i..n], w)
    ensures Recording(s, from, overflows, all[..i], all[i..], Drain(s, w, all[n..]))
    decreases |all| - n
  {
    if n == |all| {
      assert all[i..n] == all[i..];
    } else {
      RecordNext(s, from, overflows, all, i, n, w);
      WorkerNext(s, all, n, w);
      RecordRest(s, from, overflows, all, i, n + 1, Process(s, w, all[n]));
    }
  }

  lemma WorkerNext<T>(s: Setup<T>, all: seq<Block<T>>, n: nat, w: Worker<T>)
    requires SetupOk(s) && Bounded(s, w) && n < |all| && WorkerInv(s, w, all[..n])
    ensures var d := Process(s, w, all[n]);
      Bounded(s, d) && WorkerInv(s, d, all[..n + 1]) && Drain(s, w, all[n..]) == Drain(s, d, all[n + 1..])
  {
    ProcessKeeps(s, w, all[..n], all[n]);
    OneFurther(all, n);
  }

  lemma OneFurther<T>(all: seq<T>, n: nat)
    requires n < |all|
    ensures all[..n] + [all[n]] == all[..n + 1]
    ensures all[n..] != [] && all[n..][0] == all[n] && all[n..][1..] == all[n + 1..]
  {
  }

  lemma FollowsBlock<T>(s: Setup<T>, a: Pipeline<T>, all: seq<Block<T>>, w: Worker<T>)
    requires SetupOk(s) && Bounded(s, w) && Follows(s, a, all, w)
    requires var n := w.counters.blocksProcessed; n < |all| && WorkerInv(s, w, all[..n])
    ensures Follows(s, a, all, Process(s, w, all[w.counters.blocksProcessed]))
  {
    var i, n := Taken(a), w.counters.blocksProcessed;
    SamePrefix(a.capture.enqueued, all, i);
    BlockCounted(s, w, all[n]);
    RecordNext(s, a.worker, Overflows(a), all, i, n, w);
  }

  lemma BlockCounted<T>(s: Setup<T>, w: Worker<T>, b: Block<T>)
    requires SetupOk(s) && Bounded(s, w)
    ensures Process(s, w, b).counters.blocksProcessed == w.counters.blocksProcessed + 1
  {
  }

  lemma FollowsGrowth<T>(s: Setup<T>, a: Pipeline<T>, all: seq<Block<T>>, more: seq<Block<T>>, w: Worker<T>)
    requires SetupOk(s) && Follows(s, a, all, w) && all <= more
    ensures Follows(s, a, more, w)
  {
    var i, n := Taken(a), w.counters.blocksProcessed;
    assert more[i..n] == all[i..n];
  }

  lemma ProcessInSession<T>(s: Setup<T>, a: Pipeline<T>, p: Pipeline<T>)
    requires InSession(s, a, p) && Queue(p) != []
    ensures InSession(s, a, Do(s, p, ProcessNext))
  {
    StepKeeps(s, p, ProcessNext);
    ProcessEffect(s, p.worker, p.capture.enqueued[Taken(p)]);
    FollowsBlock(s, a, p.capture.enqueued, p.worker);
  }

  lemma CaptureInSession<T>(s: Setup<T>, a: Pipeline<T>, p: Pipeline<T>, op: Op<T>)
    requires InSession(s, a, p) && Enabled(s, p, op) && (op.Arrive? || op.PublishOne? || op.DropRest?)
    ensures InSession(s, a, Do(s, p, op))
  {
    StepKeeps(s, p, op);
    CaptureOnly(s, p, op);
    FollowsGrowth(s, a, p.capture.enqueued, Do(s, p, op).capture.enqueued, p.worker);
  }

  lemma CaptureOnly<T>(s: Setup<T>, p: Pipeline<T>, op: Op<T>)
    requires Ready(s, p) && Enabled(s, p, op) && (op.Arrive? || op.PublishOne? || op.DropRest?)
    ensures Do(s, p, op).worker == p.worker && p.capture.enqueued <= Do(s, p, op).capture.enqueued
  {
  }

  lemma SessionStep<T>(s: Setup<T>, a: Pipeline<T>, p: Pipeline<T>, op: Op<T>)
    requires InSession(s, a, p) && p.worker.active && Enabled(s, p, op) && Leaves(op)
    ensures InSession(s, a, Do(s, p, op))
  {
    if op.Arrive? || op.PublishOne? || op.DropRest? {
      CaptureInSession(s, a, p, op);
    } else if op.ProcessNext? && Queue(p) != [] {
      ProcessInSession(s, a, p);
    }
  }

  lemma SessionRun<T>(s: Setup<T>, a: Pipeline<T>, states: seq<Pipeline<T>>, ops: seq<Op<T>>, i: nat)
    requires IsRun(s, states, ops) && i < |states|
    requires Inv(s, a) && !a.worker.active && states[0] == Do(s, a, BeginUtterance)
    requires forall op <- ops :: Leaves(op)
    ensures InSession(s, a, states[i])
  {
    SessionOpens(s, a);
    SessionGoesOn(s, a, states, ops, i);
  }

  lemma {:induction false} SessionGoesOn<T>(
      s: Setup<T>, a: Pipeline<T>, states: seq<Pipeline<T>>, ops: seq<Op<T>>, i: nat)
    requires IsRun(s, states, ops) && i < |states|
    requires InSession(s, a, states[0]) && forall op <- ops :: Leaves(op)
    ensures InSession(s, a, states[i])
  {
    if i > 0 {
      SessionGoesOn(s, a, states, ops, i - 1);
      assert Leaves(ops[i - 1]);
      SessionStep(s, a, states[i - 1], ops[i - 1]);
    }
  }

  /** The blocks an utterance begun at `a` and finished at `p` covers. */
  function Covered<T>(a: Pipeline<T>, p: Pipeline<T>): seq<Block<T>>
    requires Taken(a) <= |p.capture.enqueued|
  {
    p.capture.enqueued[Taken(a)..]
  }

  function ProducedSince<T>(s: Setup<T>, a: Pipeline<T>, p: Pipeline<T>): seq<Timed<T>>
    requires SetupOk(s) && Taken(a) <= |a.capture.enqueued| && Taken(a) <= |p.capture.enqueued|
  {
    Produced(s, a.capture.enqueued[..Taken(a)], Covered(a, p))
  }

  /** Sealing completes the recording over every block queued. */
  lemma Sealing<T>(s: Setup<T>, a: Pipeline<T>, p: Pipeline<T>)
    requires InSession(s, a, p)
    ensures Recorded(s, a.worker, Overflows(a), ProducedSince(s, a, p), AnyFlagged(Covered(a, p)),
      LimitCame(s, a.worker, a.capture.enqueued[..Taken(a)], Covered(a, p)),
      Drain(s, p.worker, Queue(p)))
  {
    SamePrefix(a.capture.enqueued, p.capture.enqueued, Taken(a));
    RecordRest(s, a.worker, Overflows(a), p.capture.enqueued, Taken(a), Taken(p), p.worker);
  }

  /** The report of a recording that is sealed, clause by clause. */
  lemma SealedReport<T>(s: Setup<T>, from: Worker<T>, overflows: nat, produced: seq<Timed<T>>, flagged: bool,
                        limited: bool, d: Worker<T>, drained: nat, now: nat)
    requires SetupOk(s) && Recorded(s, from, overflows, produced, flagged, limited, d)
    ensures var (w, done) := Sealed(d, drained, now);
      var rejected := Rejected(s, from, |produced|);
      && w.utterance == FirstOf(s.plan.utteranceLimit, from.preRoll + produced)
      && done.framesBuffered == |w.utterance| && done.drainedBlocks == drained
      && (CallbackQueueOverflow in done.issues <==> now > overflows)
      && (Discontinuity in done.issues <==> flagged)
      && (forall l <- {DurationLimit, ByteLimit, BufferCapacity} ::
            l in done.issues <==> rejected > 0 && l in s.plan.limitIssues)
      && w.counters.buffered == from.counters.buffered + |w.utterance|
      && w.counters.rejected == from.counters.rejected + rejected
      && |w.utterance| + rejected == |from.preRoll| + |produced|
      && w.counters.limitEvents == from.counters.limitEvents + (if limited then 1 else 0)
  {
    assert Discontinuity !in s.plan.limitIssues && CallbackQueueOverflow !in s.plan.limitIssues;
  }

  /** What a finished utterance holds, and when exactly each issue is reported. */
  lemma UtteranceReport<T>(s: Setup<T>, a: Pipeline<T>, states: seq<Pipeline<T>>, ops: seq<Op<T>>)
    requires IsRun(s, states, ops) && Inv(s, a) && !a.worker.active && states[0] == Do(s, a, BeginUtterance)
    requires forall op <- ops :: Leaves(op)
    ensures InSession(s, a, states[|ops|])
    ensures var p := states[|ops|];
      var r := Finish(s, p.worker, Queue(p), Overflows(p));
      var produced := ProducedSince(s, a, p);
      var rejected := Rejected(s, a.worker, |produced|);
      && r.Ok?
      && var (w, done) := r.value;
      && w.utterance == FirstOf(s.plan.utteranceLimit, a.worker.preRoll + produced)
      && done.framesBuffered == |w.utterance| && done.drainedBlocks == |Queue(p)|
      && (CallbackQueueOverflow in done.issues <==> Overflows(p) > Overflows(a))
      && (Discontinuity in done.issues <==> AnyFlagged(Covered(a, p)))
      && (forall l <- {DurationLimit, ByteLimit, BufferCapacity} ::
            l in done.issues <==> rejected > 0 && l in s.plan.limitIssues)
      && w.counters.buffered == a.worker.counters.buffered + |w.utterance|
      && w.counters.rejected == a.worker.counters.rejected + rejected
      && |w.utterance| + rejected == |a.worker.preRoll| + |produced|
      && w.counters.limitEvents == a.worker.counters.limitEvents
           + (if LimitCame(s, a.worker, a.capture.enqueued[..Taken(a)], Covered(a, p)) then 1 else 0)
  {
    SessionRun(s, a, states, ops, |ops|);
    var p := states[|ops|];
    Sealing(s, a, p);
    SealedReport(s, a.worker, Overflows(a), ProducedSince(s, a, p), AnyFlagged(Covered(a, p)),
      LimitCame(s, a.worker, a.capture.enqueued[..Taken(a)], Covered(a, p)),
      Drain(s, p.worker, Queue(p)), |Queue(p)|, Overflows(p));
  }

  /** Sealed at any moment, whatever is still queued: the report covers exactly the blocks
      processed since begin. */
  lemma SealedAnywhere<T>(s: Setup<T>, a: Pipeline<T>, p: Pipeline<T>, drained: nat)
    requires InSession(s, a, p)
    ensures var i, n := Taken(a), Taken(p);
      i <= n <= |p.capture.enqueued|
      && var blocks := p.capture.enqueued[i..n];
      var produced := Produced(s, a.capture.enqueued[..i], blocks);
      var rejected := Rejected(s, a.worker, |produced|);
      var (w, done) := Sealed(p.worker, drained, Overflows(p));
      && p.worker.active
      && w.utterance == FirstOf(s.plan.utteranceLimit, a.worker.preRoll + produced)
      && done.framesBuffered == |w.utterance|
      && (CallbackQueueOverflow in done.issues <==> Overflows(p) > Overflows(a))
      && (Discontinuity in done.issues <==> AnyFlagged(blocks))
      && (forall l <- {DurationLimit, ByteLimit, BufferCapacity} ::
            l in done.issues <==> rejected > 0 && l in s.plan.limitIssues)
      && |w.utterance| + rejected == |a.worker.preRoll| + |produced|
  {
    var i, n := Taken(a), Taken(p);
    var blocks := p.capture.enqueued[i..n];
    SealedReport(s, a.worker, Overflows(a), Produced(s, a.capture.enqueued[..i], blocks), AnyFlagged(blocks),
      LimitCame(s, a.worker, a.capture.enqueued[..i], blocks), p.worker, drained, Overflows(p));
  }

  lemma {:induction false} ConcatSplits<T>(a: seq<Block<T>>, b: seq<Block<T>>)
    ensures Concat(a + b) == Concat(a) + Concat(b)
  {
    if b == [] {
      assert a + b == a;
      assert Concat(a) + [] == Concat(a);
    } else {
      var init, last := b[..|b| - 1], b[|b| - 1];
      assert (a + b)[..|a + b| - 1] == a + init;
      ConcatSplits(a, init);
      Regroup(Concat(a), Concat(init), last.samples);
    }
  }

  /** The native frames outstanding at `a` or received by `p` since. */
  function HeardSince<T>(native: Native, a: Pipeline<T>, p: Pipeline<T>): seq<T>
    requires Taken(a) <= |a.capture.enqueued| && FlightOk(native, a.capture.producer)
    requires |a.capture.offered| <= |p.capture.offered|
  {
    Concat(Queue(a)) + Rest(native, a.capture) + p.capture.offered[|a.capture.offered|..]
  }

  /** With nothing dropped, the covered blocks hold exactly the frames heard. */
  lemma CoveredIsHeard<T>(native: Native, a: Pipeline<T>, p: Pipeline<T>)
    requires Taken(a) <= |a.capture.enqueued| && a.capture.enqueued <= p.capture.enqueued
    requires FlightOk(native, a.capture.producer) && FlightOk(native, p.capture.producer)
    requires p.capture.producer.flight.None? && Delivered(native, a.capture, p.capture)
    ensures Concat(Covered(a, p)) == HeardSince(native, a, p)
  {
    var rest, later := Rest(native, a.capture), p.capture.offered[|a.capture.offered|..];
    ConcatAt(a.capture.enqueued, Taken(a));
    ConcatAt(p.capture.enqueued, Taken(a));
    SamePrefix(a.capture.enqueued, p.capture.enqueued, Taken(a));
    assert Concat(p.capture.enqueued) + [] == Concat(p.capture.enqueued);
    Cancel(Concat(a.capture.enqueued[..Taken(a)]), Concat(Queue(a)), rest, later, Concat(Covered(a, p)));
  }

  lemma ConcatAt<T>(blocks: seq<Block<T>>, n: nat)
    requires n <= |blocks|
    ensures Concat(blocks) == Concat(blocks[..n]) + Concat(blocks[n..])
  {
    var init, tail := blocks[..n], blocks[n..];
    ConcatSplits(init, tail);
    assert init + tail == blocks;
  }

  lemma Cancel<T>(x: seq<T>, a: seq<T>, b: seq<T>, c: seq<T>, y: seq<T>)
    requires x + y == x + a + b + c
    ensures y == a + b + c
  {
    assert (x + y)[|x|..] == y;
    assert (x + a + b + c)[|x|..] == a + b + c;
  }

  /** The utterance is the pre-roll held at `a` followed by the resampling, continued from
      there, of every native frame queued at `a` or received by `p` since; nothing was
      dropped and no gap was crossed. */
  ghost predicate Lossless<T>(s: Setup<T>, a: Pipeline<T>, p: Pipeline<T>, utterance: seq<Timed<T>>)
    requires Inv(s, a) && Inv(s, p) && a.capture.enqueued <= p.capture.enqueued && Taken(a) <= Taken(p)
  {
    && |a.capture.offered| <= |p.capture.offered|
    && Samples(utterance)
         == Samples(a.worker.preRoll)
          + Added(RatesOf(s.config), s.lerp, a.worker.run, MonoOf(s, HeardSince(s.config.native, a, p)))
    && p.capture.producer.counters.framesDropped == a.capture.producer.counters.framesDropped
    && !AnyFlagged(Covered(a, p))
  }

  /** Lossless when clean: an utterance that finishes without issues is whole. */
  lemma LosslessWhenClean<T>(s: Setup<T>, a: Pipeline<T>, states: seq<Pipeline<T>>, ops: seq<Op<T>>)
    requires IsRun(s, states, ops) && Inv(s, a) && !a.worker.active && states[0] == Do(s, a, BeginUtterance)
    requires forall op <- ops :: Leaves(op)
    requires states[|ops|].capture.producer.flight.None?
    ensures InSession(s, a, states[|ops|])
    ensures var p := states[|ops|];
      var r := Finish(s, p.worker, Queue(p), Overflows(p));
      r.Ok? && (r.value.1.issues == {} ==> Lossless(s, a, p, r.value.0.utterance))
  {
    UtteranceReport(s, a, states, ops);
    StretchFromBegin(s, a, states, ops);
    var p := states[|ops|];
    var r := Finish(s, p.worker, Queue(p), Overflows(p));
    if r.value.1.issues == {} {
      CleanMeansWhole(s, a, p, r.value.0.utterance, r.value.1.issues);
    }
  }

  lemma StretchFromBegin<T>(s: Setup<T>, a: Pipeline<T>, states: seq<Pipeline<T>>, ops: seq<Op<T>>)
    requires IsRun(s, states, ops) && Inv(s, a) && !a.worker.active && states[0] == Do(s, a, BeginUtterance)
    ensures var p := states[|ops|];
      && Inv(s, p) && Overflows(a) <= Overflows(p)
      && (Overflows(a) == Overflows(p) ==>
        && Delivered(s.config.native, a.capture, p.capture)
        && a.capture.producer.counters.framesDropped == p.capture.producer.counters.framesDropped)
  {
    StepKeeps(s, a, BeginUtterance);
    StretchDelivers(s, states, ops, |ops|);
  }

  lemma CleanMeansWhole<T>(s: Setup<T>, a: Pipeline<T>, p: Pipeline<T>, utterance: seq<Timed<T>>, issues: set<Issue>)
    requires InSession(s, a, p) && p.capture.producer.flight.None? && issues == {}
    requires CallbackQueueOverflow in issues <==> Overflows(p) > Overflows(a)
    requires Discontinuity in issues <==> AnyFlagged(Covered(a, p))
    requires forall l <- {DurationLimit, ByteLimit, BufferCapacity} ::
      l in issues <==> Rejected(s, a.worker, |ProducedSince(s, a, p)|) > 0 && l in s.plan.limitIssues
    requires utterance == FirstOf(s.plan.utteranceLimit, a.worker.preRoll + ProducedSince(s, a, p))
    requires Overflows(a) <= Overflows(p)
    requires Overflows(a) == Overflows(p) ==>
      && Delivered(s.config.native, a.capture, p.capture)
      && a.capture.producer.counters.framesDropped == p.capture.producer.counters.framesDropped
    ensures Lossless(s, a, p, utterance)
  {
    NothingRejected(s, a.worker, |ProducedSince(s, a, p)|, issues);
    CleanUtterance(s, a, p);
  }

  lemma NothingRejected<T>(s: Setup<T>, from: Worker<T>, produced: nat, issues: set<Issue>)
    requires SetupOk(s) && issues == {}
    requires forall l <- {DurationLimit, ByteLimit, BufferCapacity} ::
      l in issues <==> Rejected(s, from, produced) > 0 && l in s.plan.limitIssues
    ensures Rejected(s, from, produced) == 0
  {
    var l :| l in s.plan.limitIssues;
    assert l in {DurationLimit, ByteLimit, BufferCapacity};
  }

  lemma CleanUtterance<T>(s: Setup<T>, a: Pipeline<T>, p: Pipeline<T>)
    requires InSession(s, a, p) && p.capture.producer.flight.None?
    requires Delivered(s.config.native, a.capture, p.capture)
    requires !AnyFlagged(Covered(a, p)) && Rejected(s, a.worker, |ProducedSince(s, a, p)|) == 0
    ensures Samples(FirstOf(s.plan.utteranceLimit, a.worker.preRoll + ProducedSince(s, a, p)))
         == Samples(a.worker.preRoll)
          + Added(RatesOf(s.config), s.lerp, a.worker.run, MonoOf(s, HeardSince(s.config.native, a, p)))
  {
    CoveredIsHeard(s.config.native, a, p);
    SessionShape(s, a, p);
    ProducedUnflagged(s, a.capture.enqueued[..Taken(a)], Covered(a, p));
    AllFits(s.plan.utteranceLimit, a.worker.preRoll, ProducedSince(s, a, p));
  }

  lemma SessionShape<T>(s: Setup<T>, a: Pipeline<T>, p: Pipeline<T>)
    requires InSession(s, a, p)
    ensures Interleaved(s.config.native, Covered(a, p))
    ensures a.worker.run == RunOf(s, a.capture.enqueued[..Taken(a)])
  {
    assert Interleaved(s.config.native, p.capture.enqueued);
    SliceInterleaved(s.config.native, p.capture.enqueued, Taken(a), |p.capture.enqueued|);
    assert p.capture.enqueued[Taken(a)..|p.capture.enqueued|] == Covered(a, p);
  }

  lemma AllFits<T>(n: nat, a: seq<Timed<T>>, b: seq<Timed<T>>)
    requires |a| + |b| <= n
    ensures Samples(FirstOf(n, a + b)) == Samples(a) + Samples(b)
  {
  }

  lemma ProducedUnflagged<T>(s: Setup<T>, base: seq<Block<T>>, tail: seq<Block<T>>)
    requires SetupOk(s) && Interleaved(s.config.native, tail) && !AnyFlagged(tail)
    ensures Samples(Produced(s, base, tail))
         == Added(RatesOf(s.config), s.lerp, RunOf(s, base), MonoOf(s, Concat(tail)))
  {
    EmittedTail(s, base, tail);
    EmissionExtends(s, base, tail);
    var before, after := EmittedOf(s, base), EmittedOf(s, base + tail);
    assert Samples(after[|before|..]) == Samples(after)[|before|..];
  }

  /** An utterance's samples are numbered consecutively from the first of its pre-roll. */
  lemma UtteranceNumbering<T>(s: Setup<T>, a: Pipeline<T>, p: Pipeline<T>)
    requires InSession(s, a, p)
    ensures |a.worker.preRoll| <= |EmittedBy(s, a)|
    ensures var stored := a.worker.preRoll + ProducedSince(s, a, p);
      forall i :: 0 <= i < |stored| ==>
        stored[i].meta.outputIndex == Sat(|EmittedBy(s, a)| - |a.worker.preRoll| + i)
  {
    var base := a.capture.enqueued[..Taken(a)];
    EmissionExtends(s, base, Covered(a, p));
    IndicesConsecutive(s, base + Covered(a, p));
    NumberedTail(EmittedOf(s, base), EmittedOf(s, base + Covered(a, p)), s.plan.preRollFrames);
  }

  lemma NumberedTail<T>(before: seq<Timed<T>>, after: seq<Timed<T>>, n: nat)
    requires before <= after
    requires forall k :: 0 <= k < |after| ==> after[k].meta.outputIndex == Sat(k)
    ensures var stored := LastOf(n, before) + after[|before|..];
      forall i :: 0 <= i < |stored| ==>
        stored[i].meta.outputIndex == Sat(|before| - |LastOf(n, before)| + i)
  {
    var stored, first := LastOf(n, before) + after[|before|..], |before| - |LastOf(n, before)|;
    assert stored == after[first..];
  }

  /** Every sample of a block is stored with its stamp, whatever came before and after it. */
  lemma SampleStamp<T>(s: Setup<T>, init: seq<Block<T>>, b: Block<T>, tail: seq<Block<T>>, m: nat)
    requires SetupOk(s) && m < |EmittedOf(s, init + [b])| - |EmittedOf(s, init)|
    ensures var k, all := |EmittedOf(s, init)| + m, EmittedOf(s, init + [b] + tail);
      k < |all| && StampedAs(all[k].meta, k, b.meta, m, s.config.targetRate)
  {
    EmissionExtends(s, init + [b], tail);
    StampInBlock(s, init, b, m);
  }

  lemma StampInBlock<T>(s: Setup<T>, init: seq<Block<T>>, b: Block<T>, m: nat)
    requires SetupOk(s) && m < |EmittedOf(s, init + [b])| - |EmittedOf(s, init)|
    ensures var k := |EmittedOf(s, init)| + m;
      StampedAs(EmittedOf(s, init + [b])[k].meta, k, b.meta, m, s.config.targetRate)
  {
    assert (init + [b])[..|init|] == init;
    var run := if b.meta.discontinuity != {} then [] else RunOf(s, init);
    StampOfSample(Added(RatesOf(s.config), s.lerp, run, MonoOf(s, b.samples)),
      b.meta, |EmittedOf(s, init)|, m, s.config.targetRate);
  }
}
