/** The real-time side of callback.rs: what one capture callback does to the
    producer's own state, block by block.

    The three steps `Enter`, `Publish` and `Overflow` are the producer's whole
    behaviour between two atomic accesses to the ring. Both the class in
    CaptureRing.dfy and the interleaving machine in RingProtocol.dfy are built
    from them, so what is proved here holds under every interleaving. */
module Callback {
  import opened Prelude

  datatype Flag = DeviceReported | SampleClockGap | QueueOverflow
  /** `AudioDiscontinuity`: a byte of which only these three bits can ever be set. */
  type Flags = set<Flag>

  datatype SampleFormat = F32 | I16 | U16

  datatype Native = Native(
    format: SampleFormat, rate: Positive, channels: Positive, framesPerBlock: Positive, slots: Positive)

  datatype Stamp = Stamp(first: u64, ns: u64, discontinuity: Flags)

  /** One callback, its interleaved samples already normalized one by one. */
  datatype Call<T> = Call(format: SampleFormat, samples: seq<T>, stamp: Stamp)

  datatype Metadata = Metadata(sequence: u64, first: u64, ns: u64, discontinuity: Flags)

  datatype Block<T> = Block(samples: seq<T>, frames: nat, meta: Metadata)

  datatype WriteStatus = Complete | QueueFull | InvalidInterleaving | UnexpectedSampleFormat

  datatype CallbackWrite = CallbackWrite(accepted: nat, dropped: nat, status: WriteStatus)

  datatype Counters = Counters(
    callbacks: nat, received: nat, blocksEnqueued: nat, framesEnqueued: nat, blocksDropped: nat,
    framesDropped: nat, malformed: nat, mismatches: nat, gaps: nat, overflows: nat)

  const ZERO_COUNTERS := Counters(0, 0, 0, 0, 0, 0, 0, 0, 0, 0)

  /** A callback whose frames are being split into blocks. */
  datatype Flight<T> = Flight(samples: seq<T>, stamp: Stamp, frames: nat, accepted: nat, carry: Flags)

  datatype Producer<T> = Producer(
    sequence: u64, expected: Option<u64>, pending: Flags, flight: Option<Flight<T>>, counters: Counters)

  /** Flags raised when exactly `at` blocks had been enqueued. */
  datatype Raise = Raise(at: nat, flags: Flags)

  /** The producer together with everything it has ever done. */
  datatype Capture<T> = Capture(
    producer: Producer<T>, enqueued: seq<Block<T>>, raised: seq<Raise>, offered: seq<T>)

  function InitialCapture<T>(): Capture<T> {
    Capture(Producer(0, None, {}, None, ZERO_COUNTERS), [], [], [])
  }

  predicate WellFormed<T>(native: Native, call: Call<T>) {
    call.format == native.format && |call.samples| % native.channels == 0
  }

  function FrameCount<T>(native: Native, call: Call<T>): nat {
    |call.samples| / native.channels
  }

  /** The stamp does not continue the stream the producer was following. */
  predicate IsGap<T>(p: Producer<T>, stamp: Stamp) {
    p.expected.Some? && p.expected.value != stamp.first
  }

  /** From the call to the head of the block loop, or to an early return. */
  function Enter<T>(native: Native, c: Capture<T>, call: Call<T>): Capture<T>
    requires c.producer.flight.None?
  {
    var p := c.producer;
    var counted := p.counters.(callbacks := p.counters.callbacks + 1);
    if call.format != native.format then
      c.(producer := p.(counters := counted.(mismatches := counted.mismatches + 1)))
    else if |call.samples| % native.channels != 0 then
      c.(producer := p.(counters := counted.(malformed := counted.malformed + 1)))
    else
      var frames := FrameCount(native, call);
      var received := counted.(received := counted.received + frames);
      var news := call.stamp.discontinuity + (if IsGap(p, call.stamp) then {SampleClockGap} else {});
      var counters := if IsGap(p, call.stamp) then received.(gaps := received.gaps + 1) else received;
      var discontinuity := p.pending + news;
      var expected := Some(Sat(call.stamp.first + frames));
      var producer :=
        if frames == 0 then
          p.(expected := expected, pending := discontinuity, counters := counters)
        else
          p.(expected := expected, pending := {}, counters := counters,
             flight := Some(Flight(call.samples, call.stamp, frames, 0, discontinuity)));
      c.(producer := producer,
         raised := c.raised + [Raise(|c.enqueued|, news)],
         offered := c.offered + call.samples)
  }

  predicate FlightFits<T>(native: Native, f: Flight<T>) {
    f.accepted < f.frames && |f.samples| == f.frames * native.channels
  }

  function BlockFrames<T>(native: Native, f: Flight<T>): nat
    requires FlightFits(native, f)
    ensures 0 < BlockFrames(native, f) <= f.frames - f.accepted
  {
    Min(f.frames - f.accepted, native.framesPerBlock)
  }

  const NANOS_PER_SECOND: nat := 1_000_000_000

  /** The block the loop would publish next. */
  function NextBlock<T>(native: Native, p: Producer<T>): (b: Block<T>)
    requires p.flight.Some? && FlightFits(native, p.flight.value)
    ensures 0 < b.frames <= native.framesPerBlock && |b.samples| == b.frames * native.channels
  {
    var f := p.flight.value;
    var frames := BlockFrames(native, f);
    FitsInterleaved(native, f);
    Block(
      f.samples[f.accepted * native.channels..(f.accepted + frames) * native.channels],
      frames,
      Metadata(
        p.sequence,
        Sat(f.stamp.first + f.accepted),
        Sat(f.stamp.ns + Sat(f.accepted * NANOS_PER_SECOND) / native.rate),
        f.carry))
  }

  lemma FitsInterleaved<T>(native: Native, f: Flight<T>)
    requires FlightFits(native, f)
    ensures var frames := BlockFrames(native, f);
            && f.accepted * native.channels <= (f.accepted + frames) * native.channels <= |f.samples|
            && (f.accepted + frames) * native.channels - f.accepted * native.channels == frames * native.channels
  {
    var frames := BlockFrames(native, f);
    Distribute(f.accepted, frames, native.channels);
    MulMonotone(f.accepted + frames, f.frames, native.channels);
  }

  /** Block `b` enqueued out of the callback in flight. */
  function Enqueue<T>(c: Capture<T>, b: Block<T>): Capture<T>
    requires c.producer.flight.Some?
  {
    var p := c.producer;
    var f := p.flight.value;
    var accepted := f.accepted + b.frames;
    var counters := p.counters.(
      blocksEnqueued := p.counters.blocksEnqueued + 1,
      framesEnqueued := p.counters.framesEnqueued + b.frames);
    c.(producer := p.(
         sequence := (p.sequence + 1) % (U64_MAX + 1),
         flight := if accepted == f.frames then None else Some(f.(accepted := accepted, carry := {})),
         counters := counters),
       enqueued := c.enqueued + [b])
  }

  /** One iteration of the block loop, its slot found free. */
  function Publish<T>(native: Native, c: Capture<T>): Capture<T>
    requires c.producer.flight.Some? && FlightFits(native, c.producer.flight.value)
  {
    Enqueue(c, NextBlock(native, c.producer))
  }

  /** The block loop, its slot found still in use: the rest of the callback is dropped. */
  function Overflow<T>(native: Native, c: Capture<T>): Capture<T>
    requires c.producer.flight.Some? && FlightFits(native, c.producer.flight.value)
  {
    var p := c.producer;
    var f := p.flight.value;
    var counters := p.counters.(
      blocksDropped := p.counters.blocksDropped + 1,
      framesDropped := p.counters.framesDropped + (f.frames - f.accepted),
      overflows := p.counters.overflows + 1);
    c.(producer := p.(
         pending := p.pending + {QueueOverflow} + (if f.accepted == 0 then f.carry else {}),
         flight := None,
         counters := counters),
       raised := c.raised + [Raise(|c.enqueued|, {QueueOverflow})])
  }

  /** The block loop with `room` free slots ahead of it. */
  function WriteLoop<T>(native: Native, c: Capture<T>, room: nat): (Capture<T>, CallbackWrite)
    requires c.producer.flight.Some? && FlightFits(native, c.producer.flight.value)
    decreases room
  {
    var f := c.producer.flight.value;
    if room == 0 then
      (Overflow(native, c), CallbackWrite(f.accepted, f.frames - f.accepted, QueueFull))
    else
      var next := Publish(native, c);
      if next.producer.flight.None? then (next, CallbackWrite(f.frames, 0, Complete))
      else WriteLoop(native, next, room - 1)
  }

  lemma EnterFits<T>(native: Native, c: Capture<T>, call: Call<T>)
    requires c.producer.flight.None?
    ensures var p := Enter(native, c, call).producer;
            p.flight.Some? ==> FlightFits(native, p.flight.value) && p.flight.value.accepted == 0
  {
    if WellFormed(native, call) {
      assert |call.samples| == FrameCount(native, call) * native.channels;
    }
  }

  /** A whole callback against a ring with `room` free slots. */
  function Write<T>(native: Native, c: Capture<T>, call: Call<T>, room: nat): (Capture<T>, CallbackWrite)
    requires c.producer.flight.None?
  {
    var entered := Enter(native, c, call);
    EnterFits(native, c, call);
    if entered.producer.flight.Some? then WriteLoop(native, entered, room)
    else
      (entered, CallbackWrite(0, 0,
        if call.format != native.format then UnexpectedSampleFormat
        else if |call.samples| % native.channels != 0 then InvalidInterleaving
        else Complete))
  }
}

/** What every producer step keeps, over whole runs. */
module CallbackLaws {
  import opened Prelude
  import opened Callback

  /** The flags owed to the next block to be enqueued. */
  function Owed<T>(p: Producer<T>): Flags {
    if p.flight.Some? then p.flight.value.carry else p.pending
  }

  /** Everything raised while exactly `at` blocks were enqueued. */
  function RaisedAt(raised: seq<Raise>, at: nat): Flags {
    if raised == [] then {}
    else
      var last := raised[|raised| - 1];
      RaisedAt(raised[..|raised| - 1], at) + (if last.at == at then last.flags else {})
  }

  /** Source frame just after a block, as 64 saturating bits see it. */
  function EndOf<T>(b: Block<T>): u64 {
    Sat(b.meta.first + b.frames)
  }

  function SumFrames<T>(blocks: seq<Block<T>>): nat {
    if blocks == [] then 0 else SumFrames(blocks[..|blocks| - 1]) + blocks[|blocks| - 1].frames
  }

  function Concat<T>(blocks: seq<Block<T>>): seq<T> {
    if blocks == [] then [] else Concat(blocks[..|blocks| - 1]) + blocks[|blocks| - 1].samples
  }

  predicate FlightOk<T>(native: Native, p: Producer<T>) {
    p.flight.Some? ==>
      var f := p.flight.value;
      && FlightFits(native, f)
      && p.pending == {}
      && (f.accepted > 0 ==> f.carry == {})
      && p.expected == Some(Sat(f.stamp.first + f.frames))
  }

  /** Block `i` carries exactly what was raised since block `i - 1` was enqueued. */
  ghost predicate FlagsExact<T>(c: Capture<T>) {
    && (forall i :: 0 <= i < |c.enqueued| ==> c.enqueued[i].meta.discontinuity == RaisedAt(c.raised, i))
    && Owed(c.producer) == RaisedAt(c.raised, |c.enqueued|)
    && (forall r <- c.raised :: r.at <= |c.enqueued|)
  }

  /** An unflagged block starts where the block before it ended. */
  ghost predicate Unbroken<T>(blocks: seq<Block<T>>) {
    forall i :: 1 <= i < |blocks| && blocks[i].meta.discontinuity == {} ==>
      blocks[i].meta.first == EndOf(blocks[i - 1])
  }

  /** ... and the next block will too, unless it is owed a flag. */
  ghost predicate GapSound<T>(c: Capture<T>) {
    && Unbroken(c.enqueued)
    && (|c.enqueued| > 0 && Owed(c.producer) == {} ==>
          var last := EndOf(c.enqueued[|c.enqueued| - 1]);
          if c.producer.flight.Some?
          then last == Sat(c.producer.flight.value.stamp.first + c.producer.flight.value.accepted)
          else c.producer.expected == Some(last))
    && (|c.enqueued| > 0 ==> c.producer.expected.Some?)
  }

  ghost predicate Conserved<T>(c: Capture<T>) {
    var k := c.producer.counters;
    var inFlight := if c.producer.flight.Some?
                    then c.producer.flight.value.frames - c.producer.flight.value.accepted else 0;
    && k.received == k.framesEnqueued + k.framesDropped + inFlight
    && k.framesEnqueued == SumFrames(c.enqueued)
    && k.blocksEnqueued == |c.enqueued|
    && k.overflows == k.blocksDropped
    && c.producer.sequence == |c.enqueued| % (U64_MAX + 1)
  }

  ghost predicate Shaped<T>(native: Native, c: Capture<T>) {
    forall i :: 0 <= i < |c.enqueued| ==>
      var b := c.enqueued[i];
      && 0 < b.frames <= native.framesPerBlock
      && |b.samples| == b.frames * native.channels
      && b.meta.sequence == i % (U64_MAX + 1)
  }

  ghost predicate CaptureInv<T>(native: Native, c: Capture<T>) {
    FlightOk(native, c.producer) && FlagsExact(c) && GapSound(c) && Conserved(c) && Shaped(native, c)
  }

  lemma InitialInv<T>(native: Native)
    ensures CaptureInv<T>(native, InitialCapture())
  {
  }

  lemma RaisedSnoc(raised: seq<Raise>, r: Raise, at: nat)
    ensures RaisedAt(raised + [r], at) == RaisedAt(raised, at) + (if r.at == at then r.flags else {})
  {
    assert (raised + [r])[..|raised|] == raised;
  }

  lemma {:induction false} RaisedNowhere(raised: seq<Raise>, at: nat)
    requires forall r <- raised :: r.at < at
    ensures RaisedAt(raised, at) == {}
  {
    if raised != [] { RaisedNowhere(raised[..|raised| - 1], at); }
  }

  lemma EnterKeepsFlags<T>(native: Native, c: Capture<T>, call: Call<T>)
    requires c.producer.flight.None? && FlagsExact(c)
    ensures FlagsExact(Enter(native, c, call))
  {
    var e := Enter(native, c, call);
    if WellFormed(native, call) {
      var r := e.raised[|c.raised|];
      forall i | 0 <= i <= |c.enqueued|
        ensures RaisedAt(e.raised, i) == RaisedAt(c.raised, i) + (if r.at == i then r.flags else {})
      {
        RaisedSnoc(c.raised, r, i);
      }
    }
  }

  lemma EnterKeepsGaps<T>(native: Native, c: Capture<T>, call: Call<T>)
    requires c.producer.flight.None? && GapSound(c)
    ensures GapSound(Enter(native, c, call))
  {
  }

  lemma EnterKeepsCounts<T>(native: Native, c: Capture<T>, call: Call<T>)
    requires c.producer.flight.None? && Conserved(c)
    ensures Conserved(Enter(native, c, call))
  {
  }

  lemma EnterKeeps<T>(native: Native, c: Capture<T>, call: Call<T>)
    requires CaptureInv(native, c) && c.producer.flight.None?
    ensures CaptureInv(native, Enter(native, c, call))
  {
    EnterFits(native, c, call);
    EnterKeepsFlags(native, c, call);
    EnterKeepsGaps(native, c, call);
    EnterKeepsCounts(native, c, call);
  }

  /** What the invariants need to know of the next block. */
  predicate Continues<T>(native: Native, p: Producer<T>, b: Block<T>)
    requires p.flight.Some? && FlightFits(native, p.flight.value)
  {
    var f := p.flight.value;
    && 0 < b.frames <= native.framesPerBlock && b.frames <= f.frames - f.accepted
    && |b.samples| == b.frames * native.channels
    && b.meta.discontinuity == f.carry
    && b.meta.sequence == p.sequence
    && b.meta.first == Sat(f.stamp.first + f.accepted)
  }

  lemma EnqueueKeepsFlags<T>(native: Native, c: Capture<T>, b: Block<T>)
    requires c.producer.flight.Some? && FlightOk(native, c.producer) && Continues(native, c.producer, b)
    requires FlagsExact(c)
    ensures FlagsExact(Enqueue(c, b))
  {
    RaisedNowhere(c.raised, |c.enqueued| + 1);
  }

  lemma EnqueueKeepsGaps<T>(native: Native, c: Capture<T>, b: Block<T>)
    requires c.producer.flight.Some? && FlightOk(native, c.producer) && Continues(native, c.producer, b)
    requires GapSound(c)
    ensures GapSound(Enqueue(c, b))
  {
  }

  lemma EnqueueKeepsCounts<T>(native: Native, c: Capture<T>, b: Block<T>)
    requires c.producer.flight.Some? && FlightOk(native, c.producer) && Continues(native, c.producer, b)
    requires Conserved(c)
    ensures Conserved(Enqueue(c, b))
  {
    assert Enqueue(c, b).enqueued[..|c.enqueued|] == c.enqueued;
  }

  lemma EnqueueKeepsShape<T>(native: Native, c: Capture<T>, b: Block<T>)
    requires c.producer.flight.Some? && FlightOk(native, c.producer) && Continues(native, c.producer, b)
    requires Conserved(c) && Shaped(native, c)
    ensures Shaped(native, Enqueue(c, b))
  {
  }

  lemma PublishKeeps<T>(native: Native, c: Capture<T>)
    requires CaptureInv(native, c) && c.producer.flight.Some?
    ensures CaptureInv(native, Publish(native, c))
  {
    var b := NextBlock(native, c.producer);
    EnqueueKeepsFlags(native, c, b);
    EnqueueKeepsGaps(native, c, b);
    EnqueueKeepsCounts(native, c, b);
    EnqueueKeepsShape(native, c, b);
  }

  lemma OverflowKeeps<T>(native: Native, c: Capture<T>)
    requires CaptureInv(native, c) && c.producer.flight.Some?
    ensures CaptureInv(native, Overflow(native, c))
  {
    var d := Overflow(native, c);
    var r := d.raised[|c.raised|];
    forall i | 0 <= i <= |c.enqueued|
      ensures RaisedAt(d.raised, i) == RaisedAt(c.raised, i) + (if r.at == i then r.flags else {})
    {
      RaisedSnoc(c.raised, r, i);
    }
  }

  lemma {:induction false} WriteLoopKeeps<T>(native: Native, c: Capture<T>, room: nat)
    requires CaptureInv(native, c) && c.producer.flight.Some?
    ensures CaptureInv(native, WriteLoop(native, c, room).0)
    ensures WriteLoop(native, c, room).0.producer.flight.None?
    decreases room
  {
    if room == 0 {
      OverflowKeeps(native, c);
    } else {
      PublishKeeps(native, c);
      if Publish(native, c).producer.flight.Some? {
        WriteLoopKeeps(native, Publish(native, c), room - 1);
      }
    }
  }

  lemma WriteKeeps<T>(native: Native, c: Capture<T>, call: Call<T>, room: nat)
    requires CaptureInv(native, c) && c.producer.flight.None?
    ensures CaptureInv(native, Write(native, c, call, room).0)
    ensures Write(native, c, call, room).0.producer.flight.None?
  {
    EnterFits(native, c, call);
    EnterKeeps(native, c, call);
    if Enter(native, c, call).producer.flight.Some? {
      WriteLoopKeeps(native, Enter(native, c, call), room);
    }
  }

  /** An unflagged block is adjacent to the one before it, frame for frame, exactly when
      that one ends where 64 bits can still say so. */
  lemma UnflaggedMeansAdjacent<T>(native: Native, c: Capture<T>, i: nat)
    requires CaptureInv(native, c) && 1 <= i < |c.enqueued| && c.enqueued[i].meta.discontinuity == {}
    ensures var before, b := c.enqueued[i - 1], c.enqueued[i];
      b.meta.first == before.meta.first + before.frames <==> before.meta.first + before.frames <= U64_MAX
  {
    assert c.enqueued[i].meta.first == EndOf(c.enqueued[i - 1]);
  }

  /** One callback, published as one block. */
  function Heard<T>(native: Native, c: Capture<T>, call: Call<T>): Capture<T>
    requires CaptureInv(native, c) && c.producer.flight.None?
    requires WellFormed(native, call) && FrameCount(native, call) > 0
  {
    EnterFits(native, c, call);
    Publish(native, Enter(native, c, call))
  }

  lemma OneFrameHeard<T>(native: Native, c: Capture<T>, call: Call<T>)
    requires CaptureInv(native, c) && c.producer.flight.None?
    requires call.format == native.format && |call.samples| == native.channels
    ensures WellFormed(native, call) && FrameCount(native, call) == 1
    ensures var d := Heard(native, c, call);
      && CaptureInv(native, d) && d.producer.flight.None?
      && d.producer.expected == Some(Sat(call.stamp.first + 1)) && d.producer.pending == {}
      && |d.enqueued| == |c.enqueued| + 1 && c.enqueued <= d.enqueued
      && var b := d.enqueued[|c.enqueued|];
      && b.frames == 1 && b.meta.first == call.stamp.first
      && b.meta.discontinuity == c.producer.pending + call.stamp.discontinuity
           + (if IsGap(c.producer, call.stamp) then {SampleClockGap} else {})
  {
    FloorAtLeast(1, |call.samples|, native.channels);
    FloorAtLeast(2, |call.samples|, native.channels);
    EnterKeeps(native, c, call);
    PublishKeeps(native, Enter(native, c, call));
  }

  /** At the last frame index 64 bits can say, two frames in a row carry the same one and the
      second is not flagged. */
  lemma LastIndexRepeats<T>(native: Native, x: T) returns (c: Capture<T>)
    ensures CaptureInv(native, c) && |c.enqueued| == 2 && c.enqueued[1].meta.discontinuity == {}
    ensures c.enqueued[1].meta.first != c.enqueued[0].meta.first + c.enqueued[0].frames
  {
    var call := Call(native.format, seq(native.channels, i => x), Stamp(U64_MAX, 0, {}));
    InitialInv<T>(native);
    OneFrameHeard(native, InitialCapture(), call);
    c := Heard(native, InitialCapture(), call);
    OneFrameHeard(native, c, call);
    c := Heard(native, c, call);
  }

  /** The flags a callback brings reach the next block exactly when the callback is well
      formed, or they were owed already: a rejected callback takes its flags with it. */
  lemma FlagsKeptWhenWellFormed<T>(native: Native, c: Capture<T>, call: Call<T>)
    requires c.producer.flight.None?
    ensures call.stamp.discontinuity <= Owed(Enter(native, c, call).producer)
       <==> WellFormed(native, call) || call.stamp.discontinuity <= c.producer.pending
  {
    EnterFits(native, c, call);
  }

  /** One stray sample is enough: the device reports a discontinuity and nobody hears of it. */
  lemma MalformedLosesItsFlag<T>(native: Native, sample: T) returns (call: Call<T>)
    requires native.channels == 2
    ensures call.stamp.discontinuity == {DeviceReported}
    ensures DeviceReported !in Owed(Enter(native, InitialCapture(), call).producer)
  {
    call := Call(native.format, [sample], Stamp(0, 0, {DeviceReported}));
    FlagsKeptWhenWellFormed(native, InitialCapture(), call);
    assert DeviceReported in call.stamp.discontinuity;
  }

  // ---- a whole callback in closed form ----

  /** The flags a callback starts with: those owed, the device's, and the gap its stamp leaves. */
  function FlagsBrought<T>(p: Producer<T>, stamp: Stamp): Flags {
    p.pending + stamp.discontinuity
    + (if p.expected.Some? && p.expected.value != stamp.first then {SampleClockGap} else {})
  }

  /** How many blocks a callback makes, ring permitting. */
  function BlocksOf<T>(native: Native, call: Call<T>): nat {
    CeilDiv(|call.samples| / native.channels, native.framesPerBlock)
  }

  /** Block `j` of a callback: the frames from `j` full blocks on, as many as are left up to a
      full block, stamped with the frame and the time at which they begin; only the first
      block carries flags. */
  function BlockAt<T>(native: Native, p: Producer<T>, call: Call<T>, j: nat): Block<T>
    requires |call.samples| % native.channels == 0 && j < BlocksOf(native, call)
  {
    var at := j * native.framesPerBlock;
    var left := |call.samples| / native.channels - at;
    PiecesFit(|call.samples|, native.channels, native.framesPerBlock, j);
    var n := Min(left, native.framesPerBlock);
    Block(
      call.samples[at * native.channels..(at + n) * native.channels], n,
      Metadata(
        (p.sequence + j) % 0x1_0000_0000_0000_0000,
        Sat(call.stamp.first + at),
        Sat(call.stamp.ns + Sat(at * 1_000_000_000) / native.rate),
        if j == 0 then FlagsBrought(p, call.stamp) else {}))
  }

  lemma PiecesFit(samples: nat, channels: Positive, full: Positive, j: nat)
    requires samples % channels == 0 && j < CeilDiv(samples / channels, full)
    ensures var at := j * full;
      && at < samples / channels
      && var n := Min(samples / channels - at, full);
      at * channels <= (at + n) * channels <= samples
  {
    var at := j * full;
    CeilAtMost(samples / channels, full, j);
    var n := Min(samples / channels - at, full);
    MulMonotone(at, at + n, channels);
    FloorAtLeast(at + n, samples, channels);
  }

  /** Blocks `j` to `j + n` of a callback. */
  function BlocksFrom<T>(native: Native, p: Producer<T>, call: Call<T>, j: nat, n: nat): (blocks: seq<Block<T>>)
    requires |call.samples| % native.channels == 0 && j + n <= BlocksOf(native, call)
    ensures |blocks| == n
    decreases n
  {
    if n == 0 then [] else [BlockAt(native, p, call, j)] + BlocksFrom(native, p, call, j + 1, n - 1)
  }

  lemma {:induction false} BlocksFromAt<T>(native: Native, p: Producer<T>, call: Call<T>, j: nat, n: nat, i: nat)
    requires |call.samples| % native.channels == 0 && j + n <= BlocksOf(native, call) && i < n
    ensures BlocksFrom(native, p, call, j, n)[i] == BlockAt(native, p, call, j + i)
    decreases n
  {
    if i > 0 { BlocksFromAt(native, p, call, j + 1, n - 1, i - 1); }
  }

  /** The callback `call` came to `p` and `j` of its blocks are published in `c`. */
  ghost predicate InsideOf<T>(native: Native, p: Producer<T>, call: Call<T>, j: nat, c: Producer<T>) {
    var frames := |call.samples| / native.channels;
    && |call.samples| % native.channels == 0
    && j * native.framesPerBlock < frames
    && c.sequence == (p.sequence + j) % 0x1_0000_0000_0000_0000
    && c.pending == {}
    && c.flight == Some(Flight(call.samples, call.stamp, frames, j * native.framesPerBlock,
         if j == 0 then FlagsBrought(p, call.stamp) else {}))
  }

  lemma Inside<T>(native: Native, p: Producer<T>, call: Call<T>, j: nat, c: Producer<T>)
    requires InsideOf(native, p, call, j, c)
    ensures FlightFits(native, c.flight.value) && j < BlocksOf(native, call)
  {
    CeilAtMost(|call.samples| / native.channels, native.framesPerBlock, j);
  }

  lemma NextIsBlockAt<T>(native: Native, p: Producer<T>, call: Call<T>, j: nat, c: Producer<T>)
    requires InsideOf(native, p, call, j, c) && FlightFits(native, c.flight.value) && j < BlocksOf(native, call)
    ensures NextBlock(native, c) == BlockAt(native, p, call, j)
  {
  }

  lemma NextSequence(a: nat, j: nat)
    ensures ((a + j) % 0x1_0000_0000_0000_0000 + 1) % 0x1_0000_0000_0000_0000 == (a + (j + 1)) % 0x1_0000_0000_0000_0000
  {
  }

  /** What one publication does to the producer. */
  lemma Published<T>(native: Native, c: Capture<T>)
    requires c.producer.flight.Some? && FlightFits(native, c.producer.flight.value)
    ensures var f, d := c.producer.flight.value, Publish(native, c).producer;
      var accepted := f.accepted + Min(f.frames - f.accepted, native.framesPerBlock);
      && d.expected == c.producer.expected && d.pending == c.producer.pending
      && d.sequence == (c.producer.sequence + 1) % 0x1_0000_0000_0000_0000
      && d.flight == (if accepted == f.frames then None else Some(f.(accepted := accepted, carry := {})))
      && d.counters == c.producer.counters.(
           blocksEnqueued := c.producer.counters.blocksEnqueued + 1,
           framesEnqueued := c.producer.counters.framesEnqueued + (accepted - f.accepted))
  {
  }

  /** After block `j`: inside the next one, or at the end of the callback. */
  lemma OneBlockOn<T>(native: Native, p: Producer<T>, call: Call<T>, j: nat, c: Capture<T>)
    requires InsideOf(native, p, call, j, c.producer) && FlightFits(native, c.producer.flight.value)
    ensures var d := Publish(native, c).producer;
      && d.expected == c.producer.expected && d.pending == {}
      && (d.flight.Some? <==> (j + 1) * native.framesPerBlock < |call.samples| / native.channels)
      && (d.flight.Some? ==> InsideOf(native, p, call, j + 1, d))
  {
    Published(native, c);
    NextSequence(p.sequence, j);
    Distribute(j, 1, native.framesPerBlock);
  }

  lemma LastBlock(frames: nat, full: Positive, j: nat)
    requires j * full < frames
    ensures (j + 1) * full < frames <==> j + 1 < CeilDiv(frames, full)
  {
    CeilAtMost(frames, full, j);
    CeilAtMost(frames, full, j + 1);
  }

  /** The loop from block `j` on publishes the blocks that are left, as far as there is room. */
  lemma {:induction false} LoopBlocks<T>(
      native: Native, p: Producer<T>, call: Call<T>, j: nat, c: Capture<T>, room: nat)
    requires InsideOf(native, p, call, j, c.producer)
    ensures FlightFits(native, c.producer.flight.value) && j < BlocksOf(native, call)
    ensures var n := Min(BlocksOf(native, call) - j, room);
      WriteLoop(native, c, room).0.enqueued == c.enqueued + BlocksFrom(native, p, call, j, n)
    decreases room
  {
    Inside(native, p, call, j, c.producer);
    if room > 0 {
      var d := Publish(native, c);
      NextIsBlockAt(native, p, call, j, c.producer);
      OneBlockOn(native, p, call, j, c);
      LastBlock(|call.samples| / native.channels, native.framesPerBlock, j);
      if d.producer.flight.Some? {
        LoopBlocks(native, p, call, j + 1, d, room - 1);
        Regroup(c.enqueued, [BlockAt(native, p, call, j)],
          BlocksFrom(native, p, call, j + 1, Min(BlocksOf(native, call) - j - 1, room - 1)));
      }
    }
  }

  /** Frames accepted when `n` blocks of a callback were published. */
  function AcceptedBy<T>(native: Native, call: Call<T>, n: nat): nat {
    Min(|call.samples| / native.channels, n * native.framesPerBlock)
  }

  /** ... and answers with the frames they hold; what is dropped leaves its flags owed. */
  lemma {:induction false} LoopAnswers<T>(
      native: Native, p: Producer<T>, call: Call<T>, j: nat, c: Capture<T>, room: nat)
    requires InsideOf(native, p, call, j, c.producer)
    ensures FlightFits(native, c.producer.flight.value) && j < BlocksOf(native, call)
    ensures var (d, w) := WriteLoop(native, c, room);
      var frames, n := |call.samples| / native.channels, Min(BlocksOf(native, call) - j, room);
      var accepted := AcceptedBy(native, call, j + n);
      && w == CallbackWrite(accepted, frames - accepted, if accepted == frames then Complete else QueueFull)
      && d.producer.expected == c.producer.expected
      && d.producer.pending ==
           (if accepted == frames then {}
            else {QueueOverflow} + if j + n == 0 then FlagsBrought(p, call.stamp) else {})
    decreases room
  {
    var frames := |call.samples| / native.channels;
    Inside(native, p, call, j, c.producer);
    LastBlock(frames, native.framesPerBlock, j);
    if room > 0 {
      var d := Publish(native, c);
      OneBlockOn(native, p, call, j, c);
      if d.producer.flight.Some? { LoopAnswers(native, p, call, j + 1, d, room - 1); }
    } else {
      NothingAccepted(native, p, call, j, c);
    }
  }

  lemma NothingAccepted<T>(native: Native, p: Producer<T>, call: Call<T>, j: nat, c: Capture<T>)
    requires InsideOf(native, p, call, j, c.producer) && FlightFits(native, c.producer.flight.value)
    ensures AcceptedBy(native, call, j) == j * native.framesPerBlock == c.producer.flight.value.accepted
    ensures j > 0 <==> c.producer.flight.value.accepted > 0
  {
    if j > 0 { MulMonotone(1, j, native.framesPerBlock); }
  }

  /** What a loop counts, given what it published and dropped. */
  function Counted(k: Counters, blocks: nat, frames: nat, dropped: nat): Counters {
    k.(blocksEnqueued := k.blocksEnqueued + blocks,
       framesEnqueued := k.framesEnqueued + frames,
       blocksDropped := k.blocksDropped + (if dropped > 0 then 1 else 0),
       framesDropped := k.framesDropped + dropped,
       overflows := k.overflows + (if dropped > 0 then 1 else 0))
  }

  /** The counters after a loop, by the blocks it published and its answer. */
  lemma {:induction false} LoopCounts<T>(native: Native, c: Capture<T>, room: nat)
    requires c.producer.flight.Some? && FlightFits(native, c.producer.flight.value)
    ensures var (d, w) := WriteLoop(native, c, room);
      && |d.enqueued| >= |c.enqueued| && w.accepted >= c.producer.flight.value.accepted
      && d.producer.counters == Counted(c.producer.counters, |d.enqueued| - |c.enqueued|,
           w.accepted - c.producer.flight.value.accepted, w.dropped)
    decreases room
  {
    if room > 0 {
      Published(native, c);
      if Publish(native, c).producer.flight.Some? { LoopCounts(native, Publish(native, c), room - 1); }
    } else {
      DropCounts(native, c);
    }
  }

  lemma DropCounts<T>(native: Native, c: Capture<T>)
    requires c.producer.flight.Some? && FlightFits(native, c.producer.flight.value)
    ensures var f := c.producer.flight.value;
      Overflow(native, c).producer.counters == Counted(c.producer.counters, 0, 0, f.frames - f.accepted)
  {
  }

  /** A whole callback, from the samples and the stamp alone: a format that is not the ring's or
      samples that are no whole number of frames are counted and change nothing else; no
      frames leave their flags owed; and otherwise the blocks the frames make are published as
      far as there is room, the rest is dropped, and the answer and the counters say how many. */
  lemma WriteExactly<T>(native: Native, c: Capture<T>, call: Call<T>, room: nat)
    requires c.producer.flight.None?
    ensures var (d, w) := Write(native, c, call, room);
      var p, k := c.producer, c.producer.counters;
      if call.format != native.format then
        && d == c.(producer := p.(counters := k.(callbacks := k.callbacks + 1, mismatches := k.mismatches + 1)))
        && w == CallbackWrite(0, 0, UnexpectedSampleFormat)
      else if |call.samples| % native.channels != 0 then
        && d == c.(producer := p.(counters := k.(callbacks := k.callbacks + 1, malformed := k.malformed + 1)))
        && w == CallbackWrite(0, 0, InvalidInterleaving)
      else
        var frames := |call.samples| / native.channels;
        var n := Min(BlocksOf(native, call), room);
        var accepted := AcceptedBy(native, call, n);
        && d.enqueued == c.enqueued + BlocksFrom(native, p, call, 0, n)
        && w == CallbackWrite(accepted, frames - accepted, if accepted == frames then Complete else QueueFull)
        && d.producer.expected == Some(Sat(call.stamp.first + frames))
        && d.producer.pending ==
             (if frames == 0 then FlagsBrought(p, call.stamp)
              else if accepted == frames then {}
              else {QueueOverflow} + if n == 0 then FlagsBrought(p, call.stamp) else {})
        && d.producer.counters == Counted(
             k.(callbacks := k.callbacks + 1, received := k.received + frames,
                gaps := k.gaps + if p.expected.Some? && p.expected.value != call.stamp.first then 1 else 0),
             n, accepted, frames - accepted)
  {
    if WellFormed(native, call) {
      if |call.samples| / native.channels > 0 {
        EnteredInside(native, c, call);
        LoopExactly(native, c.producer, call, Enter(native, c, call), room);
      } else {
        NoFrames(native, c, call);
      }
    }
  }

  lemma NoFrames<T>(native: Native, c: Capture<T>, call: Call<T>)
    requires c.producer.flight.None? && WellFormed(native, call) && |call.samples| / native.channels == 0
    ensures BlocksOf(native, call) == 0
    ensures var d, p := Enter(native, c, call), c.producer;
      && d.enqueued == c.enqueued + BlocksFrom(native, p, call, 0, 0)
      && d.producer.pending == FlagsBrought(p, call.stamp)
  {
    var p := c.producer;
    var gap: Flags := if p.expected.Some? && p.expected.value != call.stamp.first then {SampleClockGap} else {};
    assert p.pending + (call.stamp.discontinuity + gap) == p.pending + call.stamp.discontinuity + gap;
    CeilAtMost(0, native.framesPerBlock, 0);
  }

  /** The whole loop of a callback. */
  lemma LoopExactly<T>(native: Native, p: Producer<T>, call: Call<T>, c: Capture<T>, room: nat)
    requires InsideOf(native, p, call, 0, c.producer)
    ensures FlightFits(native, c.producer.flight.value)
    ensures var (d, w) := WriteLoop(native, c, room);
      var frames, n := |call.samples| / native.channels, Min(BlocksOf(native, call), room);
      var accepted := AcceptedBy(native, call, n);
      && d.enqueued == c.enqueued + BlocksFrom(native, p, call, 0, n)
      && w == CallbackWrite(accepted, frames - accepted, if accepted == frames then Complete else QueueFull)
      && d.producer.expected == c.producer.expected
      && d.producer.pending ==
           (if accepted == frames then {} else {QueueOverflow} + if n == 0 then FlagsBrought(p, call.stamp) else {})
      && d.producer.counters == Counted(c.producer.counters, n, accepted, frames - accepted)
  {
    LoopBlocks(native, p, call, 0, c, room);
    LoopAnswers(native, p, call, 0, c, room);
    LoopCounts(native, c, room);
  }

  lemma EnteredInside<T>(native: Native, c: Capture<T>, call: Call<T>)
    requires c.producer.flight.None? && WellFormed(native, call) && |call.samples| / native.channels > 0
    ensures var e, k := Enter(native, c, call), c.producer.counters;
      && InsideOf(native, c.producer, call, 0, e.producer) && e.enqueued == c.enqueued
      && e.producer.expected == Some(Sat(call.stamp.first + |call.samples| / native.channels))
      && e.producer.counters == k.(
           callbacks := k.callbacks + 1, received := k.received + |call.samples| / native.channels,
           gaps := k.gaps
             + if c.producer.expected.Some? && c.producer.expected.value != call.stamp.first then 1 else 0)
  {
    var p := c.producer;
    var gap: Flags := if p.expected.Some? && p.expected.value != call.stamp.first then {SampleClockGap} else {};
    assert p.pending + (call.stamp.discontinuity + gap) == p.pending + call.stamp.discontinuity + gap;
  }
}
