/** Chunk invariance: what the worker produces depends on the frames the device
    delivered, not on how they were cut into callbacks or blocks. */
module ChunkInvariance {
  import opened Prelude
  import opened Callback
  import opened CallbackLaws
  import opened Resampler
  import opened Buffers
  import opened WorkerSpec
  import opened Pipeline

  /** Samples of the callback in flight that are not in any block yet. */
  function Rest<T>(native: Native, c: Capture<T>): seq<T>
    requires FlightOk(native, c.producer)
  {
    if c.producer.flight.None? then []
    else
      var f := c.producer.flight.value;
      FitsInterleaved(native, f);
      f.samples[f.accepted * native.channels..]
  }

  /** Everything received and not dropped. */
  function Content<T>(native: Native, c: Capture<T>): seq<T>
    requires FlightOk(native, c.producer)
  {
    Concat(c.enqueued) + Rest(native, c)
  }

  /** `c` has come to `d` and in between received exactly what `d` holds beyond `c`. */
  ghost predicate Delivered<T>(native: Native, c: Capture<T>, d: Capture<T>)
    requires FlightOk(native, c.producer) && FlightOk(native, d.producer)
  {
    && c.offered <= d.offered
    && Content(native, d) == Content(native, c) + d.offered[|c.offered|..]
  }

  lemma EnterDelivers<T>(native: Native, c: Capture<T>, call: Call<T>)
    requires FlightOk(native, c.producer) && c.producer.flight.None?
    ensures FlightOk(native, Enter(native, c, call).producer)
    ensures Delivered(native, c, Enter(native, c, call))
  {
    EnterFits(native, c, call);
    var d := Enter(native, c, call);
    assert d.offered == c.offered + d.offered[|c.offered|..];
    if WellFormed(native, call) && FrameCount(native, call) == 0 {
      FloorAtLeast(1, |call.samples|, native.channels);
      assert call.samples == [];
    }
  }

  lemma ConcatOne<T>(blocks: seq<Block<T>>, b: Block<T>)
    ensures Concat(blocks + [b]) == Concat(blocks) + b.samples
  {
    assert (blocks + [b])[..|blocks|] == blocks;
  }

  lemma PublishDelivers<T>(native: Native, c: Capture<T>)
    requires FlightOk(native, c.producer) && c.producer.flight.Some?
    ensures FlightOk(native, Publish(native, c).producer)
    ensures Delivered(native, c, Publish(native, c))
  {
    var f, b, d := c.producer.flight.value, NextBlock(native, c.producer), Publish(native, c);
    FitsInterleaved(native, f);
    var lo, hi := f.accepted * native.channels, (f.accepted + b.frames) * native.channels;
    ConcatOne(c.enqueued, b);
    assert b.samples + f.samples[hi..] == f.samples[lo..];
    if d.producer.flight.None? { assert f.samples[hi..] == []; }
    Regroup(Concat(c.enqueued), b.samples, f.samples[hi..]);
  }

  lemma DeliveredChains<T>(native: Native, c: Capture<T>, d: Capture<T>, e: Capture<T>)
    requires FlightOk(native, c.producer) && FlightOk(native, d.producer) && FlightOk(native, e.producer)
    requires Delivered(native, c, d) && Delivered(native, d, e)
    ensures Delivered(native, c, e)
  {
    assert e.offered[|c.offered|..] == d.offered[|c.offered|..] + e.offered[|d.offered|..];
  }

  /** Over any stretch of a run without an overflow, nothing received goes missing. */
  lemma {:induction false} StretchDelivers<T>(s: Setup<T>, states: seq<Pipeline<T>>, ops: seq<Op<T>>, i: nat)
    requires IsRun(s, states, ops) && Inv(s, states[0]) && i < |states|
    ensures Inv(s, states[i])
    ensures states[0].capture.producer.counters.overflows <= states[i].capture.producer.counters.overflows
    ensures states[0].capture.producer.counters.overflows == states[i].capture.producer.counters.overflows ==>
      && Delivered(s.config.native, states[0].capture, states[i].capture)
      && states[0].capture.producer.counters.framesDropped == states[i].capture.producer.counters.framesDropped
  {
    var native, c := s.config.native, states[0].capture;
    if i == 0 {
      assert c.offered[|c.offered|..] == [];
    } else {
      StretchDelivers(s, states, ops, i - 1);
      RunKeeps(s, states, ops, i);
      var d, e := states[i - 1].capture, states[i].capture;
      CaptureMoves(s, states[i - 1], ops[i - 1]);
      if c.producer.counters.overflows == e.producer.counters.overflows {
        DeliveredChains(native, c, d, e);
      }
    }
  }

  lemma CaptureMoves<T>(s: Setup<T>, p: Pipeline<T>, op: Op<T>)
    requires Inv(s, p) && Enabled(s, p, op)
    ensures var d, e := p.capture, Do(s, p, op).capture;
      && FlightOk(s.config.native, e.producer)
      && d.producer.counters.overflows <= e.producer.counters.overflows
      && (d.producer.counters.overflows == e.producer.counters.overflows ==>
            Delivered(s.config.native, d, e)
            && d.producer.counters.framesDropped == e.producer.counters.framesDropped)
  {
    var native := s.config.native;
    match op
    case Arrive(call) => EnterDelivers(native, p.capture, call);
    case PublishOne => PublishDelivers(native, p.capture);
    case DropRest => OverflowKeeps(native, p.capture);
    case _ => assert p.capture.offered[|p.capture.offered|..] == [];
  }

  /** Every overflow counted dropped at least one frame. */
  lemma {:induction false} OverflowsDrop<T>(s: Setup<T>, states: seq<Pipeline<T>>, ops: seq<Op<T>>, i: nat)
    requires IsRun(s, states, ops) && i < |states|
    ensures var before, now := states[0].capture.producer.counters, states[i].capture.producer.counters;
      0 <= now.overflows - before.overflows <= now.framesDropped - before.framesDropped
  {
    if i > 0 {
      OverflowsDrop(s, states, ops, i - 1);
      OneDrops(s, states[i - 1], ops[i - 1]);
    }
  }

  lemma OneDrops<T>(s: Setup<T>, p: Pipeline<T>, op: Op<T>)
    requires Ready(s, p) && Enabled(s, p, op)
    ensures var before, now := p.capture.producer.counters, Do(s, p, op).capture.producer.counters;
      0 <= now.overflows - before.overflows <= now.framesDropped - before.framesDropped
  {
  }

  // ---- emission over unflagged blocks ----

  function AnyFlagged<T>(blocks: seq<Block<T>>): bool {
    blocks != [] &&
    (AnyFlagged(blocks[..|blocks| - 1]) || blocks[|blocks| - 1].meta.discontinuity != {})
  }

  lemma SamplesOfStamped<T>(a: seq<Timed<T>>, b: seq<T>, source: Metadata, first: u64, rate: Positive)
    ensures Samples(a + Stamped(b, source, first, rate)) == Samples(a) + b
  {
  }

  /** After `base`, `tail` produces what resampling its mono frames in one go would. */
  ghost predicate InOneGo<T>(s: Setup<T>, base: seq<Block<T>>, tail: seq<Block<T>>)
    requires SetupOk(s)
  {
    && RunOf(s, base + tail) == RunOf(s, base) + MonoOf(s, Concat(tail))
    && Samples(EmittedOf(s, base + tail))
       == Samples(EmittedOf(s, base)) + Added(RatesOf(s.config), s.lerp, RunOf(s, base), MonoOf(s, Concat(tail)))
  }

  lemma {:induction false} EmittedTail<T>(s: Setup<T>, base: seq<Block<T>>, tail: seq<Block<T>>)
    requires SetupOk(s) && Interleaved(s.config.native, tail) && !AnyFlagged(tail)
    ensures InOneGo(s, base, tail)
  {
    if tail == [] {
      EmptyTail(s, base);
    } else {
      var init, b := tail[..|tail| - 1], tail[|tail| - 1];
      SplitsLast(s.config.native, tail, init, b);
      EmittedTail(s, base, init);
      TailGrows(s, base, init, b);
    }
  }

  lemma SplitsLast<T>(native: Native, tail: seq<Block<T>>, init: seq<Block<T>>, b: Block<T>)
    requires tail != [] && init == tail[..|tail| - 1] && b == tail[|tail| - 1]
    requires Interleaved(native, tail) && !AnyFlagged(tail)
    ensures init + [b] == tail && Interleaved(native, init) && !AnyFlagged(init) && b.meta.discontinuity == {}
  {
  }

  lemma EmptyTail<T>(s: Setup<T>, base: seq<Block<T>>)
    requires SetupOk(s)
    ensures InOneGo<T>(s, base, [])
  {
    assert base + [] == base;
    assert RunOf(s, base) + [] == RunOf(s, base);
    assert |Added(RatesOf(s.config), s.lerp, RunOf(s, base), [])| == 0;
  }

  lemma TailGrows<T>(s: Setup<T>, base: seq<Block<T>>, init: seq<Block<T>>, b: Block<T>)
    requires SetupOk(s) && InOneGo(s, base, init)
    requires Interleaved(s.config.native, init) && b.meta.discontinuity == {}
    ensures InOneGo(s, base, init + [b])
  {
    var rates, run := RatesOf(s.config), RunOf(s, base);
    var before, more := MonoOf(s, Concat(init)), MonoOf(s, b.samples);
    MonoGrows(s, init, b);
    EmissionGrows(s, base + init, b);
    Regroup(base, init, [b]);
    AddedOn(rates, s.lerp, Samples(EmittedOf(s, base)), run, before, more);
  }

  lemma AddedOn<T>(rates: Rates, lerp: Lerp<T>, emitted: seq<T>, run: seq<T>, before: seq<T>, more: seq<T>)
    ensures (run + before) + more == run + (before + more)
    ensures (emitted + Added(rates, lerp, run, before)) + Added(rates, lerp, run + before, more)
         == emitted + Added(rates, lerp, run, before + more)
  {
    AddedSplits(rates, lerp, run, before, more);
    Regroup(run, before, more);
    Regroup(emitted, Added(rates, lerp, run, before), Added(rates, lerp, run + before, more));
  }

  lemma EmissionGrows<T>(s: Setup<T>, blocks: seq<Block<T>>, b: Block<T>)
    requires SetupOk(s) && b.meta.discontinuity == {}
    ensures RunOf(s, blocks + [b]) == RunOf(s, blocks) + MonoOf(s, b.samples)
    ensures Samples(EmittedOf(s, blocks + [b]))
         == Samples(EmittedOf(s, blocks)) + Added(RatesOf(s.config), s.lerp, RunOf(s, blocks), MonoOf(s, b.samples))
  {
    assert (blocks + [b])[..|blocks|] == blocks;
    SamplesOfStamped(EmittedOf(s, blocks),
      Added(RatesOf(s.config), s.lerp, RunOf(s, blocks), MonoOf(s, b.samples)),
      b.meta, Sat(|EmittedOf(s, blocks)|), s.config.targetRate);
  }

  // ---- the theorem ----

  /** No device report, no clock gap, no overflow has happened. */
  ghost predicate NothingRaised<T>(c: Capture<T>) {
    forall r <- c.raised :: r.flags == {}
  }

  lemma {:induction false} RaisedNothing(raised: seq<Raise>, at: nat)
    requires forall r <- raised :: r.flags == {}
    ensures RaisedAt(raised, at) == {}
  {
    if raised != [] { RaisedNothing(raised[..|raised| - 1], at); }
  }

  lemma {:induction false} NothingFlagged<T>(c: Capture<T>, n: nat)
    requires FlagsExact(c) && NothingRaised(c) && n <= |c.enqueued|
    ensures !AnyFlagged(c.enqueued[..n])
  {
    if n > 0 {
      NothingFlagged(c, n - 1);
      RaisedNothing(c.raised, n - 1);
      assert c.enqueued[..n][..n - 1] == c.enqueued[..n - 1];
    }
  }

  lemma {:induction false} OverflowIsRaised<T>(s: Setup<T>, states: seq<Pipeline<T>>, ops: seq<Op<T>>, i: nat)
    requires SetupOk(s) && IsRun(s, states, ops) && states[0] == Start() && i < |states|
    ensures NothingRaised(states[i].capture) ==> states[i].capture.producer.counters.overflows == 0
  {
    if i > 0 {
      OverflowIsRaised(s, states, ops, i - 1);
      var c, d := states[i - 1].capture, states[i].capture;
      assert forall r <- c.raised :: r in d.raised;
      if ops[i - 1].DropRest? {
        assert d.raised[|c.raised|] in d.raised;
      }
    }
  }

  /** Once a clean stream has been processed to the end, the worker has produced the
      resampling of the frames delivered, whatever the callbacks, blocks and interleaving. */
  lemma OutputDependsOnFramesOnly<T>(s: Setup<T>, states: seq<Pipeline<T>>, ops: seq<Op<T>>)
    requires SetupOk(s) && IsRun(s, states, ops) && states[0] == Start()
    requires var c := states[|ops|].capture; NothingRaised(c) && c.producer.flight.None?
    requires Taken(states[|ops|]) == |states[|ops|].capture.enqueued|
    ensures Inv(s, states[|ops|]) && Concat(states[|ops|].capture.enqueued) == states[|ops|].capture.offered
    ensures Samples(EmittedBy(s, states[|ops|]))
         == Resampled(RatesOf(s.config), s.lerp, MonoOf(s, states[|ops|].capture.offered))
  {
    StartInv(s);
    StretchDelivers(s, states, ops, |ops|);
    OverflowIsRaised(s, states, ops, |ops|);
    AllDelivered(s.config.native, states[|ops|].capture);
    CleanOutput(s, states[|ops|]);
  }

  lemma AllDelivered<T>(native: Native, c: Capture<T>)
    requires FlightOk(native, c.producer) && c.producer.flight.None?
    requires Delivered(native, InitialCapture(), c)
    ensures Concat(c.enqueued) == c.offered
  {
    var start: Capture<T> := InitialCapture();
    assert Content(native, start) == [];
    assert [] + c.offered[|start.offered|..] == c.offered;
    assert Concat(c.enqueued) + [] == Concat(c.enqueued);
  }

  lemma CleanOutput<T>(s: Setup<T>, p: Pipeline<T>)
    requires Inv(s, p) && NothingRaised(p.capture) && Taken(p) == |p.capture.enqueued|
    ensures Samples(EmittedBy(s, p)) == Resampled(RatesOf(s.config), s.lerp, MonoOf(s, Concat(p.capture.enqueued)))
  {
    var all := p.capture.enqueued;
    assert all[..|all|] == all;
    NothingFlagged(p.capture, |all|);
    assert Interleaved(s.config.native, all);
    OneGoFromStart(s, all);
  }

  lemma OneGoFromStart<T>(s: Setup<T>, all: seq<Block<T>>)
    requires SetupOk(s) && Interleaved(s.config.native, all) && !AnyFlagged(all)
    ensures Samples(EmittedOf(s, all)) == Resampled(RatesOf(s.config), s.lerp, MonoOf(s, Concat(all)))
  {
    EmittedTail(s, [], all);
    assert [] + all == all;
    assert [] + MonoOf(s, Concat(all)) == MonoOf(s, Concat(all));
  }

  /** Two pipelines that differ in block size, ring size and buffers, fed the same frames
      in different pieces, produce the same samples. */
  lemma ChunksDoNotMatter<T>(
      s: Setup<T>, t: Setup<T>,
      sStates: seq<Pipeline<T>>, sOps: seq<Op<T>>, tStates: seq<Pipeline<T>>, tOps: seq<Op<T>>)
    requires SetupOk(s) && IsRun(s, sStates, sOps) && sStates[0] == Start()
    requires SetupOk(t) && IsRun(t, tStates, tOps) && tStates[0] == Start()
    requires s.lerp == t.lerp && s.average == t.average && s.config.policy == t.config.policy
    requires s.config.native.channels == t.config.native.channels && RatesOf(s.config) == RatesOf(t.config)
    requires var c := sStates[|sOps|].capture; NothingRaised(c) && c.producer.flight.None?
    requires var c := tStates[|tOps|].capture; NothingRaised(c) && c.producer.flight.None?
    requires Taken(sStates[|sOps|]) == |sStates[|sOps|].capture.enqueued|
    requires Taken(tStates[|tOps|]) == |tStates[|tOps|].capture.enqueued|
    requires sStates[|sOps|].capture.offered == tStates[|tOps|].capture.offered
    ensures Inv(s, sStates[|sOps|]) && Inv(t, tStates[|tOps|])
    ensures Samples(EmittedBy(s, sStates[|sOps|])) == Samples(EmittedBy(t, tStates[|tOps|]))
  {
    OutputDependsOnFramesOnly(s, sStates, sOps);
    OutputDependsOnFramesOnly(t, tStates, tOps);
  }
}
