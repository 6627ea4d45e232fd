/** What a stale load of the overflow counter can hide: an utterance reported without issues
    that has lost frames. The run is built step by step. */
module StaleLoads {
  import opened Prelude
  import opened Callback
  import opened CallbackLaws
  import opened Resampler
  import opened Buffers
  import opened WorkerSpec
  import opened Pipeline
  import opened Sessions
  import opened ChunkInvariance
  import opened Interleaving
  import opened CleanSession
  import Ring = RingProtocol

  /** A run from the start that has come to `x`. */
  ghost predicate CameTo<T>(s: Setup<T>, zero: T, states: seq<System<T>>, steps: seq<Step<T>>, x: System<T>) {
    && SetupOk(s) && Interleaving.IsRun(s, zero, states, steps)
    && Interleaving.Initial(s.config.native, states[0]) && states[|steps|] == x
  }

  lemma CursorsAt<T>(s: Setup<T>, zero: T, states: seq<System<T>>, steps: seq<Step<T>>, x: System<T>)
    requires CameTo(s, zero, states, steps, x)
    ensures x.ring.seenConsumed <= x.ring.consumed <= x.ring.seenPublished <= x.ring.published
    ensures x.ring.published == |x.ring.capture.enqueued|
    ensures x.ring.loading.Some? ==> x.ring.consumed < |x.ring.capture.enqueued|
  {
    RunIsGood(s, zero, states, steps, |steps|);
  }

  /** A run made longer by actions on the ring alone. */
  ghost predicate Longer<T>(
      states: seq<System<T>>, steps: seq<Step<T>>, more: seq<System<T>>, all: seq<Step<T>>)
  {
    states <= more && steps <= all && forall m :: |steps| <= m < |all| ==> all[m].Shared?
  }

  lemma Advance<T>(
      s: Setup<T>, zero: T, states: seq<System<T>>, steps: seq<Step<T>>, x: System<T>, step: Step<T>)
      returns (more: seq<System<T>>, all: seq<Step<T>>)
    requires CameTo(s, zero, states, steps, x) && Interleaving.Enabled(s.config.native, x, step)
    ensures Allowed(s, x, step) && CameTo(s, zero, more, all, Take(s, zero, x, step))
    ensures more == states + [Take(s, zero, x, step)] && all == steps + [step]
  {
    RunIsGood(s, zero, states, steps, |steps|);
    StepIsGood(s, zero, x, step);
    RunGrows(s, zero, states, steps, step);
    more, all := states + [Take(s, zero, x, step)], steps + [step];
  }

  lemma RunGrows<T>(s: Setup<T>, zero: T, states: seq<System<T>>, steps: seq<Step<T>>, step: Step<T>)
    requires Interleaving.IsRun(s, zero, states, steps)
    requires Interleaving.Enabled(s.config.native, states[|steps|], step) && Allowed(s, states[|steps|], step)
    ensures Interleaving.IsRun(s, zero, states + [Take(s, zero, states[|steps|], step)], steps + [step])
  {
    var more, all := states + [Take(s, zero, states[|steps|], step)], steps + [step];
    forall i | 0 <= i < |all|
      ensures Interleaving.Enabled(s.config.native, more[i], all[i]) && Allowed(s, more[i], all[i])
      ensures more[i + 1] == Take(s, zero, more[i], all[i])
    {
      if i < |steps| { assert more[i] == states[i] && more[i + 1] == states[i + 1] && all[i] == steps[i]; }
    }
  }

  lemma StoreEffect<T>(s: Setup<T>, zero: T, x: System<T>)
    requires Interleaving.Enabled(s.config.native, x, Shared(Ring.StoreWord))
    requires Allowed(s, x, Shared(Ring.StoreWord))
    ensures var y := Take(s, zero, x, Shared(Ring.StoreWord));
      y == x.(ring := x.ring.(slots := y.ring.slots, storing := Some(x.ring.storing.value + 1)))
  {
  }

  lemma StoreOnce<T>(s: Setup<T>, zero: T, states: seq<System<T>>, steps: seq<Step<T>>, x: System<T>)
      returns (more: seq<System<T>>, all: seq<Step<T>>, y: System<T>)
    requires CameTo(s, zero, states, steps, x)
    requires Interleaving.Enabled(s.config.native, x, Shared(Ring.StoreWord))
    ensures CameTo(s, zero, more, all, y) && Longer(states, steps, more, all)
    ensures y == x.(ring := x.ring.(slots := y.ring.slots, storing := Some(x.ring.storing.value + 1)))
  {
    more, all := Advance(s, zero, states, steps, x, Shared(Ring.StoreWord));
    StoreEffect(s, zero, x);
    y := Take(s, zero, x, Shared(Ring.StoreWord));
  }

  /** The rest of the open slot is stored. */
  lemma StoreAll<T>(s: Setup<T>, zero: T, states: seq<System<T>>, steps: seq<Step<T>>, x: System<T>)
      returns (more: seq<System<T>>, all: seq<Step<T>>, y: System<T>)
    requires CameTo(s, zero, states, steps, x) && Ring.CanPublish(s.config.native, x.ring) && x.ring.storing.Some?
    requires x.ring.storing.value <= |NextBlock(s.config.native, x.ring.capture.producer).samples| + Ring.HEADER
    ensures CameTo(s, zero, more, all, y) && Longer(states, steps, more, all)
    ensures y == x.(ring := x.ring.(slots := y.ring.slots, storing := y.ring.storing))
    ensures Interleaving.Enabled(s.config.native, y, Shared(Ring.PublishBlock))
    decreases |NextBlock(s.config.native, x.ring.capture.producer).samples| + Ring.HEADER - x.ring.storing.value
  {
    var total := |NextBlock(s.config.native, x.ring.capture.producer).samples| + Ring.HEADER;
    if x.ring.storing.value == total {
      more, all, y := states, steps, x;
    } else {
      var next;
      more, all, next := StoreOnce(s, zero, states, steps, x);
      more, all, y := StoreAll(s, zero, more, all, next);
    }
  }

  lemma LoadEffect<T>(s: Setup<T>, zero: T, x: System<T>)
    requires Interleaving.Enabled(s.config.native, x, Shared(Ring.LoadWord))
    requires Allowed(s, x, Shared(Ring.LoadWord))
    ensures var y := Take(s, zero, x, Shared(Ring.LoadWord));
      && y == x.(ring := x.ring.(loading := y.ring.loading))
      && y.ring.loading.Some? && |y.ring.loading.value| == |x.ring.loading.value| + 1
  {
  }

  lemma LoadOnce<T>(s: Setup<T>, zero: T, states: seq<System<T>>, steps: seq<Step<T>>, x: System<T>)
      returns (more: seq<System<T>>, all: seq<Step<T>>, y: System<T>)
    requires CameTo(s, zero, states, steps, x)
    requires x.ring.loading.Some? && !Ring.CopyDone(s.config.native, x.ring.loading.value)
    ensures CameTo(s, zero, more, all, y) && Longer(states, steps, more, all)
    ensures y == x.(ring := x.ring.(loading := y.ring.loading))
    ensures y.ring.loading.Some? && |y.ring.loading.value| == |x.ring.loading.value| + 1
    ensures x.ring.consumed < |x.ring.capture.enqueued|
    ensures |x.ring.loading.value| < |x.ring.capture.enqueued[x.ring.consumed].samples| + Ring.HEADER
  {
    RunIsGood(s, zero, states, steps, |steps|);
    Ring.CopyProgress(s.config.native, x.ring);
    more, all := Advance(s, zero, states, steps, x, Shared(Ring.LoadWord));
    LoadEffect(s, zero, x);
    y := Take(s, zero, x, Shared(Ring.LoadWord));
  }

  /** The rest of the block being copied is loaded. */
  lemma LoadAll<T>(s: Setup<T>, zero: T, states: seq<System<T>>, steps: seq<Step<T>>, x: System<T>)
      returns (more: seq<System<T>>, all: seq<Step<T>>, y: System<T>)
    requires CameTo(s, zero, states, steps, x)
    requires x.ring.loading.Some? && x.ring.consumed < |x.ring.capture.enqueued|
    ensures CameTo(s, zero, more, all, y) && Longer(states, steps, more, all)
    ensures y == x.(ring := x.ring.(loading := y.ring.loading))
    ensures Interleaving.Enabled(s.config.native, y, Shared(Ring.Release))
    decreases |x.ring.capture.enqueued[x.ring.consumed].samples| + Ring.HEADER - |x.ring.loading.value|
  {
    if Ring.CopyDone(s.config.native, x.ring.loading.value) {
      more, all, y := states, steps, x;
    } else {
      var next;
      more, all, next := LoadOnce(s, zero, states, steps, x);
      more, all, y := LoadAll(s, zero, more, all, next);
    }
  }

  /** One block published, from a load of `consumed` that is up to date. */
  lemma PublishNext<T>(s: Setup<T>, zero: T, states: seq<System<T>>, steps: seq<Step<T>>, x: System<T>)
      returns (more: seq<System<T>>, all: seq<Step<T>>, y: System<T>)
    requires CameTo(s, zero, states, steps, x)
    requires Ring.CanPublish(s.config.native, x.ring) && x.ring.storing.None?
    requires x.ring.published - x.ring.consumed < s.config.native.slots
    ensures CameTo(s, zero, more, all, y) && Longer(states, steps, more, all)
    ensures y.ring.capture == Publish(s.config.native, x.ring.capture)
    ensures y.ring.published == x.ring.published + 1 && y.ring.consumed == x.ring.consumed && y.ring.storing.None?
    ensures y.ring.loading == x.ring.loading && y.ring.seenPublished == x.ring.seenPublished
    ensures y == x.(ring := y.ring, overflowsAt := x.overflowsAt + [Overflowed(x)])
  {
    CursorsAt(s, zero, states, steps, x);
    var begun, stored;
    more, all, begun := OpenOnce(s, zero, states, steps, x);
    more, all, stored := StoreAll(s, zero, more, all, begun);
    more, all, y := CloseOnce(s, zero, more, all, stored);
  }

  lemma OpenOnce<T>(s: Setup<T>, zero: T, states: seq<System<T>>, steps: seq<Step<T>>, x: System<T>)
      returns (more: seq<System<T>>, all: seq<Step<T>>, y: System<T>)
    requires CameTo(s, zero, states, steps, x)
    requires Ring.CanPublish(s.config.native, x.ring) && x.ring.storing.None?
    requires x.ring.published - x.ring.consumed < s.config.native.slots
    ensures CameTo(s, zero, more, all, y) && Longer(states, steps, more, all)
    ensures y == x.(ring := x.ring.(seenConsumed := x.ring.consumed, storing := Some(0)))
  {
    CursorsAt(s, zero, states, steps, x);
    var room := Shared(Ring.ObserveConsumed(x.ring.consumed));
    more, all := Advance(s, zero, states, steps, x, room);
    y := Take(s, zero, x, room);
  }

  lemma CloseEffect<T>(s: Setup<T>, zero: T, x: System<T>)
    requires Interleaving.Enabled(s.config.native, x, Shared(Ring.PublishBlock))
    requires Allowed(s, x, Shared(Ring.PublishBlock))
    ensures var y := Take(s, zero, x, Shared(Ring.PublishBlock));
      y == x.(
        ring := x.ring.(capture := Publish(s.config.native, x.ring.capture),
          published := x.ring.published + 1, storing := None),
        overflowsAt := x.overflowsAt + [Overflowed(x)])
  {
  }

  lemma CloseOnce<T>(s: Setup<T>, zero: T, states: seq<System<T>>, steps: seq<Step<T>>, x: System<T>)
      returns (more: seq<System<T>>, all: seq<Step<T>>, y: System<T>)
    requires CameTo(s, zero, states, steps, x)
    requires Interleaving.Enabled(s.config.native, x, Shared(Ring.PublishBlock))
    ensures CameTo(s, zero, more, all, y) && Longer(states, steps, more, all)
    ensures y == x.(
      ring := x.ring.(capture := Publish(s.config.native, x.ring.capture),
        published := x.ring.published + 1, storing := None),
      overflowsAt := x.overflowsAt + [Overflowed(x)])
  {
    more, all := Advance(s, zero, states, steps, x, Shared(Ring.PublishBlock));
    CloseEffect(s, zero, x);
    y := Take(s, zero, x, Shared(Ring.PublishBlock));
  }

  /** The oldest block released and processed, from a load of `published` that is up to date. */
  lemma PopNext<T>(s: Setup<T>, zero: T, states: seq<System<T>>, steps: seq<Step<T>>, x: System<T>)
      returns (more: seq<System<T>>, all: seq<Step<T>>, y: System<T>)
    requires CameTo(s, zero, states, steps, x) && x.ring.loading.None? && x.ring.consumed < x.ring.published
    ensures CameTo(s, zero, more, all, y) && Longer(states, steps, more, all)
    ensures y.ring.capture == x.ring.capture && y.ring.published == x.ring.published
    ensures y.ring.consumed == x.ring.consumed + 1 && y.ring.loading.None?
    ensures y.ring.seenPublished == x.ring.published
    ensures y.finishing == x.finishing && y.overflowsAt == x.overflowsAt && y.seenOverflows == x.seenOverflows
  {
    CursorsAt(s, zero, states, steps, x);
    var looked;
    more, all, looked := LookOnce(s, zero, states, steps, x);
    var mid, done, copied := LoadAll(s, zero, more, all, looked);
    more, all, y := ReleaseOnce(s, zero, mid, done, copied);
  }

  lemma LookEffect<T>(s: Setup<T>, zero: T, x: System<T>)
    requires x.ring.consumed < x.ring.published
    requires Interleaving.Enabled(s.config.native, x, Shared(Ring.ObservePublished(x.ring.published)))
    requires Allowed(s, x, Shared(Ring.ObservePublished(x.ring.published)))
    ensures Take(s, zero, x, Shared(Ring.ObservePublished(x.ring.published)))
         == x.(ring := x.ring.(seenPublished := x.ring.published, loading := Some([])))
  {
  }

  /** One up-to-date load of `published`. */
  lemma LookOnce<T>(s: Setup<T>, zero: T, states: seq<System<T>>, steps: seq<Step<T>>, x: System<T>)
      returns (more: seq<System<T>>, all: seq<Step<T>>, y: System<T>)
    requires CameTo(s, zero, states, steps, x) && x.ring.loading.None? && x.ring.consumed < x.ring.published
    ensures CameTo(s, zero, more, all, y) && Longer(states, steps, more, all)
    ensures y == x.(ring := x.ring.(seenPublished := x.ring.published, loading := Some([])))
  {
    CursorsAt(s, zero, states, steps, x);
    var seen := Shared(Ring.ObservePublished(x.ring.published));
    more, all := Advance(s, zero, states, steps, x, seen);
    LookEffect(s, zero, x);
    y := Take(s, zero, x, seen);
  }

  lemma ReleaseOnce<T>(s: Setup<T>, zero: T, states: seq<System<T>>, steps: seq<Step<T>>, x: System<T>)
      returns (more: seq<System<T>>, all: seq<Step<T>>, y: System<T>)
    requires CameTo(s, zero, states, steps, x)
    requires Interleaving.Enabled(s.config.native, x, Shared(Ring.Release))
    ensures CameTo(s, zero, more, all, y) && Longer(states, steps, more, all)
    ensures y.ring.capture == x.ring.capture && y.ring.published == x.ring.published
    ensures y.ring.consumed == x.ring.consumed + 1 && y.ring.loading.None?
    ensures y.ring.seenPublished == x.ring.seenPublished
    ensures y.finishing == x.finishing && y.overflowsAt == x.overflowsAt && y.seenOverflows == x.seenOverflows
  {
    more, all := Advance(s, zero, states, steps, x, Shared(Ring.Release));
    y := Take(s, zero, x, Shared(Ring.Release));
  }

  lemma FreshSystem<T>(s: Setup<T>, zero: T) returns (x: System<T>)
    requires SetupOk(s)
    ensures CameTo(s, zero, [x], [], x) && Interleaving.Initial(s.config.native, x)
  {
    var row: seq<Ring.Word<T>> := seq(Ring.Capacity(s.config.native) + Ring.HEADER, i => Ring.Number(0));
    var m := Ring.Machine(seq(s.config.native.slots, i => row), 0, 0, InitialCapture(), None, 0, None, 0, []);
    x := System(m, InitialWorker(), None, 0, InitialWorker(), []);
  }

  /** Two frames for a ring that holds one: the second is dropped after the first is published. */
  lemma TwoFrames<T>(native: Native, x: T) returns (call: Call<T>)
    requires native.framesPerBlock == 1
    ensures var c := Enter(native, InitialCapture(), call);
      && FlightOk(native, c.producer) && c.producer.flight.Some? && c.producer.counters.overflows == 0
      && var d := Publish(native, c);
      && FlightOk(native, d.producer) && d.producer.flight.Some? && d.producer.counters.overflows == 0
      && |d.enqueued| == 1 && d.enqueued[0].meta.discontinuity == {} && d.enqueued[0].frames == 1
      && |d.enqueued[0].samples| == native.channels
      && var e := Overflow(native, d);
      e.producer.flight.None? && e.producer.counters.overflows == 1 && e.enqueued == d.enqueued
  {
    call := Call(native.format, seq(2 * native.channels, i => x), Stamp(0, 0, {}));
    FloorAtLeast(2, |call.samples|, native.channels);
    FloorAtLeast(3, |call.samples|, native.channels);
    EnterFits(native, InitialCapture(), call);
    InitialInv<T>(native);
    EnterKeeps(native, InitialCapture(), call);
    PublishKeeps(native, Enter(native, InitialCapture(), call));
  }

  /** The run: begin; two frames arrive on a ring that holds one; finish; the one block popped. */
  lemma LossyRun<T>(s: Setup<T>, zero: T)
      returns (states: seq<System<T>>, steps: seq<Step<T>>, k: nat, x: System<T>)
    requires SetupOk(s) && s.config.native.framesPerBlock == 1 && s.config.native.slots == 1
    ensures CameTo(s, zero, states, steps, x) && k < |steps|
    ensures Utterance(s.config.native, states, steps, 0, k, |steps|, 0)
    ensures steps[0] == Step.Begin(0) && Overflowed(states[0]) == 0 && Overflowed(x) == 1
    ensures states[0].ring.consumed == 0 && states[0].worker == InitialWorker()
    ensures states[0].ring.capture.enqueued == []
    ensures x.ring.consumed == x.ring.published == 1 && x.ring.capture.producer.flight.None?
    ensures |x.ring.capture.enqueued| == 1 && x.ring.capture.enqueued[0].meta.discontinuity == {}
    ensures |x.ring.capture.enqueued[0].samples| == s.config.native.channels
    ensures x.ring.capture.enqueued[0].frames == 1
  {
    x := FreshSystem(s, zero);
    states, steps := [x], [];
    var call := TwoFrames(s.config.native, zero);
    states, steps := Advance(s, zero, states, steps, x, Step.Begin(0));
    x := Take(s, zero, x, Step.Begin(0));
    states, steps, x := Lossy(s, zero, states, steps, x, call);
    k := |steps|;
    states, steps := Advance(s, zero, states, steps, x, Step.Finish);
    x := Take(s, zero, x, Step.Finish);
    states, steps, x := PopNext(s, zero, states, steps, x);
  }

  /** One frame published, and the rest of the callback dropped. */
  lemma Lossy<T>(
      s: Setup<T>, zero: T, states: seq<System<T>>, steps: seq<Step<T>>, x: System<T>, call: Call<T>)
      returns (more: seq<System<T>>, all: seq<Step<T>>, y: System<T>)
    requires CameTo(s, zero, states, steps, x) && s.config.native.slots == 1
    requires x.ring.capture == InitialCapture() && x.ring.storing.None?
    requires x.ring.published == x.ring.consumed == x.ring.seenConsumed == 0
    requires var c := Enter(s.config.native, InitialCapture(), call);
      && FlightOk(s.config.native, c.producer) && c.producer.flight.Some? && c.producer.counters.overflows == 0
      && var d := Publish(s.config.native, c);
      FlightOk(s.config.native, d.producer) && d.producer.flight.Some?
    ensures CameTo(s, zero, more, all, y) && Longer(states, steps, more, all)
    ensures y.ring.capture ==
      Overflow(s.config.native, Publish(s.config.native, Enter(s.config.native, InitialCapture(), call)))
    ensures y.ring.published == 1 && y.ring.consumed == 0
    ensures y.ring.loading == x.ring.loading && y.ring.seenPublished == x.ring.seenPublished
    ensures y == x.(ring := y.ring, overflowsAt := x.overflowsAt + [0])
  {
    var arrived, published;
    more, all, arrived := ArriveOnce(s, zero, states, steps, x, call);
    more, all, published := PublishNext(s, zero, more, all, arrived);
    more, all, y := DropOnce(s, zero, more, all, published);
  }

  lemma ArriveOnce<T>(
      s: Setup<T>, zero: T, states: seq<System<T>>, steps: seq<Step<T>>, x: System<T>, call: Call<T>)
      returns (more: seq<System<T>>, all: seq<Step<T>>, y: System<T>)
    requires CameTo(s, zero, states, steps, x) && x.ring.capture.producer.flight.None?
    ensures CameTo(s, zero, more, all, y) && Longer(states, steps, more, all)
    ensures y == x.(ring := x.ring.(capture := Enter(s.config.native, x.ring.capture, call)))
  {
    more, all := Advance(s, zero, states, steps, x, Shared(Ring.Arrive(call)));
    y := Take(s, zero, x, Shared(Ring.Arrive(call)));
  }

  /** The rest of a callback dropped, from a load of `consumed` that shows a full ring. */
  lemma DropOnce<T>(s: Setup<T>, zero: T, states: seq<System<T>>, steps: seq<Step<T>>, x: System<T>)
      returns (more: seq<System<T>>, all: seq<Step<T>>, y: System<T>)
    requires CameTo(s, zero, states, steps, x)
    requires Ring.CanPublish(s.config.native, x.ring) && x.ring.storing.None?
    requires x.ring.published - x.ring.consumed >= s.config.native.slots
    ensures CameTo(s, zero, more, all, y) && Longer(states, steps, more, all)
    ensures y == x.(ring := x.ring.(
      seenConsumed := x.ring.consumed, capture := Overflow(s.config.native, x.ring.capture)))
  {
    CursorsAt(s, zero, states, steps, x);
    var full := Shared(Ring.ObserveConsumed(x.ring.consumed));
    more, all := Advance(s, zero, states, steps, x, full);
    y := Take(s, zero, x, full);
  }

  /** A clean report over lost frames: on a ring that holds one frame, two arrive after begin,
      the second is dropped, and the seal still reads no overflow. Nothing is queued, no
      callback is under way, no issue is reported, and the utterance is not lossless. */
  lemma StaleLoadHidesLoss<T>(s: Setup<T>, zero: T)
      returns (states: seq<System<T>>, steps: seq<Step<T>>, k: nat, j: nat)
    requires SetupOk(s) && s.config.native.framesPerBlock == 1 && s.config.native.slots == 1
    ensures Interleaving.IsRun(s, zero, states, steps) && Interleaving.Initial(s.config.native, states[0])
    ensures Utterance(s.config.native, states, steps, 0, k, j, 0)
    ensures states[j].ring.consumed == states[j].ring.published
    ensures states[j].ring.capture.producer.flight.None?
    ensures InSession(s, PipelineOf(states[0]), PipelineOf(states[j]))
    ensures var (w, done) := Sealed(states[j].worker, Drained(states[j]), 0);
      done.issues == {} && !Lossless(s, PipelineOf(states[0]), PipelineOf(states[j]), w.utterance)
  {
    var x;
    states, steps, k, x := LossyRun(s, zero);
    j := |steps|;
    CleanVerdict(s, zero, states, steps, k, x);
    InterleavedLossless(s, zero, states, steps, 0, k, j, 0);
  }

  lemma CleanVerdict<T>(s: Setup<T>, zero: T, states: seq<System<T>>, steps: seq<Step<T>>, k: nat, x: System<T>)
    requires CameTo(s, zero, states, steps, x) && k < |steps|
    requires Utterance(s.config.native, states, steps, 0, k, |steps|, 0) && steps[0] == Step.Begin(0)
    requires states[0].ring.consumed == 0 && states[0].worker == InitialWorker()
    requires states[0].ring.capture.enqueued == []
    requires x.ring.consumed == |x.ring.capture.enqueued| == 1
    requires var b := x.ring.capture.enqueued[0];
      b.meta.discontinuity == {} && b.frames == 1 && |b.samples| == s.config.native.channels
    ensures Sealed(x.worker, Drained(x), 0).1.issues == {}
  {
    InterleavedUtterance(s, zero, states, steps, 0, k, |steps|, 0);
    var blocks := x.ring.capture.enqueued;
    assert blocks[0..1] == blocks && states[0].ring.capture.enqueued[..0] == [];
    OneBlockFits(s, blocks);
    NoIssues(Sealed(x.worker, Drained(x), 0).1.issues);
  }

  lemma OneBlockFits<T>(s: Setup<T>, blocks: seq<Block<T>>)
    requires SetupOk(s) && |blocks| == 1 && blocks[0].meta.discontinuity == {}
    requires blocks[0].frames == 1 && |blocks[0].samples| == s.config.native.channels
    ensures !AnyFlagged(blocks) && Rejected(s, InitialWorker<T>(), |Produced(s, [], blocks)|) == 0
  {
    assert blocks[..0] == [];
    assert Interleaved(s.config.native, blocks);
    ProducedUnflagged(s, [], blocks);
    assert Concat(blocks) == blocks[0].samples;
    FloorAtLeast(1, |blocks[0].samples|, s.config.native.channels);
    FloorAtLeast(2, |blocks[0].samples|, s.config.native.channels);
    assert |Samples(Produced(s, [], blocks))| == 1;
  }
}
