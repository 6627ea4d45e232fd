/** The ring of callback.rs as the two ends see it when they do not run at the
    same moment: preallocated slots, a producer handle and a consumer handle.
    RingProtocol.dfy treats the moments when they do. */
module CaptureRing {
  import opened Prelude
  import opened Callback

  class Ring<T> {
    const native: Native
    const samples: array2<T>
    const frames: array<nat>
    const metas: array<Metadata>
    var published: nat
    var consumed: nat
    var counters: Counters
    /** Every block ever published. */
    ghost var sent: seq<Block<T>>

    ghost predicate Shape()
      reads this
    {
      && samples.Length0 == native.slots
      && samples.Length1 == native.framesPerBlock * native.channels
      && frames.Length == native.slots
      && metas.Length == native.slots
    }

    function SlotOf(k: nat): (slot: nat)
      ensures slot < native.slots
    {
      k % native.slots
    }

    /** A slot's contents are those of block `b`. */
    ghost predicate Holds(slot: nat, b: Block<T>)
      requires Shape() && slot < native.slots
      reads this, samples, frames, metas
    {
      && frames[slot] == b.frames
      && metas[slot] == b.meta
      && |b.samples| <= samples.Length1
      && forall j :: 0 <= j < |b.samples| ==> samples[slot, j] == b.samples[j]
    }

    ghost predicate Valid()
      reads this, samples, frames, metas
    {
      && Shape()
      && consumed <= published <= consumed + native.slots
      && |sent| == published
      && (forall k :: consumed <= k < published ==> Holds(SlotOf(k), sent[k]))
      && (forall k :: 0 <= k < published ==>
            0 < sent[k].frames <= native.framesPerBlock && |sent[k].samples| == sent[k].frames * native.channels)
    }

    /** Blocks published and not yet released by the consumer. */
    ghost function Queue(): seq<Block<T>>
      requires Valid()
      reads this, samples, frames, metas
    {
      sent[consumed..]
    }

    ghost function Room(): nat
      requires Valid()
      reads this, samples, frames, metas
    {
      native.slots - (published - consumed)
    }

    constructor (native: Native, zero: T)
      ensures Valid() && this.native == native && sent == [] && Queue() == []
      ensures counters == ZERO_COUNTERS && published == 0 && consumed == 0
      ensures fresh(samples) && fresh(frames) && fresh(metas)
    {
      this.native := native;
      samples := new T[native.slots, native.framesPerBlock * native.channels]((i, j) => zero);
      frames := new nat[native.slots](i => 0);
      metas := new Metadata[native.slots](i => Metadata(0, 0, 0, {}));
      published, consumed, counters, sent := 0, 0, ZERO_COUNTERS, [];
    }

    /** Fills the next slot and releases it to the consumer. */
    method PublishBlock(source: seq<T>, start: nat, b: Block<T>)
      requires Valid() && Room() > 0
      requires start + |b.samples| <= |source| && source[start..start + |b.samples|] == b.samples
      requires |b.samples| == b.frames * native.channels <= samples.Length1 && 0 < b.frames <= native.framesPerBlock
      modifies this`published, this`sent, samples, frames, metas
      ensures Valid() && sent == old(sent) + [b] && Room() == old(Room()) - 1
    {
      var slot := published % native.slots;
      forall k | consumed <= k < published
        ensures SlotOf(k) != slot
      {
        if SlotOf(k) == slot { SameSlot(k, published, native.slots); }
      }
      StoreSamples(slot, source, start, |b.samples|);
      frames[slot] := b.frames;
      metas[slot] := b.meta;
      sent := sent + [b];
      published := published + 1;
      forall k | consumed <= k < published
        ensures Holds(SlotOf(k), sent[k])
      {
        if k < published - 1 {
          assert old(Holds(SlotOf(k), sent[k]));
        } else {
          forall j | 0 <= j < |b.samples| ensures samples[slot, j] == b.samples[j] {
            assert source[start + j] == source[start..start + |b.samples|][j];
          }
        }
      }
    }

    method StoreSamples(slot: nat, source: seq<T>, start: nat, n: nat)
      requires slot < samples.Length0 && n <= samples.Length1 && start + n <= |source|
      modifies samples
      ensures forall j :: 0 <= j < n ==> samples[slot, j] == source[start + j]
      ensures forall i, j :: 0 <= i < samples.Length0 && 0 <= j < samples.Length1 && i != slot ==>
        samples[i, j] == old(samples[i, j])
    {
      for j := 0 to n
        invariant forall m :: 0 <= m < j ==> samples[slot, m] == source[start + m]
        invariant forall i, m :: 0 <= i < samples.Length0 && 0 <= m < samples.Length1 && i != slot ==>
          samples[i, m] == old(samples[i, m])
      {
        samples[slot, j] := source[start + j];
      }
    }
  }

  /** One pass of the block loop with room to spare. */
  lemma LoopOn<T>(native: Native, c: Capture<T>, room: nat)
    requires room > 0 && c.producer.flight.Some? && FlightFits(native, c.producer.flight.value)
    ensures var next := Publish(native, c);
      && c.enqueued <= next.enqueued
      && WriteLoop(native, c, room) ==
           if next.producer.flight.None? then (next, CallbackWrite(c.producer.flight.value.frames, 0, Complete))
           else WriteLoop(native, next, room - 1)
  {
  }

  class CaptureCallback<T> {
    const ring: Ring<T>
    var writeCursor: nat
    var sequence: u64
    var expectedFirstFrame: Option<u64>
    var pendingDiscontinuity: Flags
    /** What this producer has done so far. */
    ghost var capture: Capture<T>

    ghost predicate Valid()
      reads this, ring, ring.samples, ring.frames, ring.metas
    {
      && ring.Valid()
      && writeCursor == ring.published
      && ring.sent == capture.enqueued
      && capture.producer == Producer(sequence, expectedFirstFrame, pendingDiscontinuity, None, ring.counters)
    }

    constructor (ring: Ring<T>)
      requires ring.Valid() && ring.published == 0 && ring.counters == ZERO_COUNTERS
      ensures Valid() && this.ring == ring && capture == InitialCapture()
    {
      this.ring := ring;
      writeCursor, sequence, expectedFirstFrame, pendingDiscontinuity := 0, 0, None, {};
      capture := InitialCapture();
    }

    method Write(call: Call<T>) returns (w: CallbackWrite)
      requires Valid()
      modifies this, ring`published, ring`sent, ring`counters, ring.samples, ring.frames, ring.metas
      ensures Valid()
      ensures (capture, w) == Callback.Write(ring.native, old(capture), call, old(ring.Room()))
      ensures old(capture).enqueued <= capture.enqueued
      ensures ring.Queue() == old(ring.Queue()) + capture.enqueued[|old(capture).enqueued|..]
    {
      EnterFits(ring.native, capture, call);
      var status, frameCount, discontinuity := Receive(call);
      if status != Complete || frameCount == 0 {
        return CallbackWrite(0, 0, status);
      }
      w := WriteBlocks(call, frameCount, discontinuity);
    }

    /** Everything before the block loop. */
    method Receive(call: Call<T>) returns (status: WriteStatus, frameCount: nat, discontinuity: Flags)
      requires capture.producer == Producer(sequence, expectedFirstFrame, pendingDiscontinuity, None, ring.counters)
      modifies this`expectedFirstFrame, this`pendingDiscontinuity, this`capture, ring`counters
      ensures capture == Enter(ring.native, old(capture), call)
      ensures capture.producer == Producer(sequence, expectedFirstFrame, pendingDiscontinuity,
        if status != Complete || frameCount == 0 then None
        else Some(Flight(call.samples, call.stamp, frameCount, 0, discontinuity)), ring.counters)
      ensures status == if call.format != ring.native.format then UnexpectedSampleFormat
                        else if |call.samples| % ring.native.channels != 0 then InvalidInterleaving
                        else Complete
      ensures status == Complete && frameCount > 0 ==> pendingDiscontinuity == {}
    {
      var native := ring.native;
      frameCount, discontinuity := 0, {};
      capture := Enter(native, capture, call);
      ring.counters := ring.counters.(callbacks := ring.counters.callbacks + 1);
      if call.format != native.format {
        ring.counters := ring.counters.(mismatches := ring.counters.mismatches + 1);
        return UnexpectedSampleFormat, frameCount, discontinuity;
      }
      if |call.samples| % native.channels != 0 {
        ring.counters := ring.counters.(malformed := ring.counters.malformed + 1);
        return InvalidInterleaving, frameCount, discontinuity;
      }
      status := Complete;
      frameCount := |call.samples| / native.channels;
      ring.counters := ring.counters.(received := ring.counters.received + frameCount);
      discontinuity := call.stamp.discontinuity + pendingDiscontinuity;
      pendingDiscontinuity := {};
      if expectedFirstFrame.Some? && expectedFirstFrame.value != call.stamp.first {
        discontinuity := discontinuity + {SampleClockGap};
        ring.counters := ring.counters.(gaps := ring.counters.gaps + 1);
      }
      assert discontinuity == old(pendingDiscontinuity) +
        (call.stamp.discontinuity + if IsGap(old(capture).producer, call.stamp) then {SampleClockGap} else {});
      expectedFirstFrame := Some(Sat(call.stamp.first + frameCount));
      if frameCount == 0 {
        pendingDiscontinuity := pendingDiscontinuity + discontinuity;
      }
    }

    /** The block loop: each pass either publishes one block or drops the rest. */
    method WriteBlocks(call: Call<T>, frameCount: nat, discontinuity: Flags) returns (w: CallbackWrite)
      requires ring.Valid() && writeCursor == ring.published && ring.sent == capture.enqueued
      requires frameCount > 0 && |call.samples| == frameCount * ring.native.channels
      requires pendingDiscontinuity == {}
      requires capture.producer == Producer(sequence, expectedFirstFrame, {},
        Some(Flight(call.samples, call.stamp, frameCount, 0, discontinuity)), ring.counters)
      modifies this, ring`published, ring`sent, ring`counters, ring.samples, ring.frames, ring.metas
      ensures Valid()
      ensures (capture, w) == WriteLoop(ring.native, old(capture), old(ring.Room()))
      ensures old(capture).enqueued <= capture.enqueued
    {
      ghost var goal := WriteLoop(ring.native, capture, ring.Room());
      var accepted, carry := 0, discontinuity;
      while accepted < frameCount
        invariant accepted <= frameCount
        invariant ring.Valid() && writeCursor == ring.published && ring.sent == capture.enqueued
        invariant pendingDiscontinuity == {}
        invariant capture.producer == Producer(sequence, expectedFirstFrame, {},
          if accepted == frameCount then None
          else Some(Flight(call.samples, call.stamp, frameCount, accepted, carry)), ring.counters)
        invariant goal ==
          if accepted == frameCount then (capture, CallbackWrite(frameCount, 0, Complete))
          else WriteLoop(ring.native, capture, ring.Room())
        invariant old(capture).enqueued <= capture.enqueued
      {
        var full, frames := WriteOne(call, frameCount, accepted, carry);
        if full.Some? {
          return full.value;
        }
        accepted := accepted + frames;
        carry := {};
      }
      w := CallbackWrite(accepted, 0, Complete);
    }

    /** One pass: a block published, or the rest dropped because the ring is full. */
    method WriteOne(call: Call<T>, frameCount: nat, accepted: nat, carry: Flags)
        returns (full: Option<CallbackWrite>, frames: nat)
      requires ring.Valid() && writeCursor == ring.published && ring.sent == capture.enqueued
      requires accepted < frameCount && |call.samples| == frameCount * ring.native.channels
      requires pendingDiscontinuity == {}
      requires capture.producer == Producer(sequence, expectedFirstFrame, {},
        Some(Flight(call.samples, call.stamp, frameCount, accepted, carry)), ring.counters)
      modifies this, ring`published, ring`sent, ring`counters, ring.samples, ring.frames, ring.metas
      ensures ring.Valid() && writeCursor == ring.published && ring.sent == capture.enqueued
      ensures old(capture).enqueued <= capture.enqueued
      ensures full.Some? <==> old(ring.Room()) == 0
      ensures full.Some? ==>
        && capture.producer == Producer(sequence, expectedFirstFrame, pendingDiscontinuity, None, ring.counters)
        && WriteLoop(ring.native, old(capture), old(ring.Room()))
           == (capture, full.value)
      ensures full.None? ==>
        && pendingDiscontinuity == {} && 0 < frames <= frameCount - accepted
        && capture.producer == Producer(sequence, expectedFirstFrame, {},
             if accepted + frames == frameCount then None
             else Some(Flight(call.samples, call.stamp, frameCount, accepted + frames, {})), ring.counters)
        && WriteLoop(ring.native, old(capture), old(ring.Room())) ==
             if accepted + frames == frameCount then (capture, CallbackWrite(frameCount, 0, Complete))
             else WriteLoop(ring.native, capture, ring.Room())
    {
      if writeCursor - ring.consumed >= ring.native.slots {
        var w := DropRest(call, frameCount, accepted, carry);
        return Some(w), 0;
      }
      LoopOn(ring.native, capture, ring.Room());
      frames := PublishNext(call, frameCount, accepted, carry);
      full := None;
    }

    method DropRest(call: Call<T>, frameCount: nat, accepted: nat, carry: Flags) returns (w: CallbackWrite)
      requires accepted < frameCount && |call.samples| == frameCount * ring.native.channels
      requires pendingDiscontinuity == {}
      requires capture.producer == Producer(sequence, expectedFirstFrame, {},
        Some(Flight(call.samples, call.stamp, frameCount, accepted, carry)), ring.counters)
      modifies this`pendingDiscontinuity, this`capture, ring`counters
      ensures capture == Overflow(ring.native, old(capture))
      ensures w == CallbackWrite(accepted, frameCount - accepted, QueueFull)
      ensures capture.producer ==
        Producer(sequence, expectedFirstFrame, pendingDiscontinuity, None, ring.counters)
    {
      var dropped := frameCount - accepted;
      capture := Overflow(ring.native, capture);
      ring.counters := ring.counters.(
        blocksDropped := ring.counters.blocksDropped + 1,
        framesDropped := ring.counters.framesDropped + dropped,
        overflows := ring.counters.overflows + 1);
      pendingDiscontinuity := pendingDiscontinuity + {QueueOverflow};
      if accepted == 0 {
        pendingDiscontinuity := pendingDiscontinuity + carry;
      }
      w := CallbackWrite(accepted, dropped, QueueFull);
    }

    /** One pass of the loop with room to spare: fill the slot, then publish it. */
    method PublishNext(call: Call<T>, frameCount: nat, accepted: nat, carry: Flags) returns (frames: nat)
      requires ring.Valid() && ring.Room() > 0 && writeCursor == ring.published && ring.sent == capture.enqueued
      requires accepted < frameCount && |call.samples| == frameCount * ring.native.channels
      requires capture.producer == Producer(sequence, expectedFirstFrame, pendingDiscontinuity,
        Some(Flight(call.samples, call.stamp, frameCount, accepted, carry)), ring.counters)
      modifies this`writeCursor, this`sequence, this`capture
      modifies ring`published, ring`sent, ring`counters, ring.samples, ring.frames, ring.metas
      ensures 0 < frames <= frameCount - accepted
      ensures ring.Valid() && ring.Room() == old(ring.Room()) - 1
      ensures writeCursor == ring.published && ring.sent == capture.enqueued
      ensures capture == Publish(ring.native, old(capture))
      ensures capture.producer == Producer(sequence, expectedFirstFrame, pendingDiscontinuity,
        if accepted + frames == frameCount then None
        else Some(Flight(call.samples, call.stamp, frameCount, accepted + frames, {})), ring.counters)
    {
      var native := ring.native;
      var flight := Flight(call.samples, call.stamp, frameCount, accepted, carry);
      var producer := Producer(sequence, expectedFirstFrame, pendingDiscontinuity, Some(flight), ring.counters);
      var b := NextBlock(native, producer);
      FitsInterleaved(native, flight);
      frames := b.frames;
      var start := accepted * native.channels;
      MulMonotone(frames, native.framesPerBlock, native.channels);
      ring.PublishBlock(call.samples, start, b);
      ring.counters := ring.counters.(
        blocksEnqueued := ring.counters.blocksEnqueued + 1,
        framesEnqueued := ring.counters.framesEnqueued + frames);
      capture := Enqueue(capture, b);
      writeCursor := writeCursor + 1;
      sequence := (sequence + 1) % (U64_MAX + 1);
    }
  }

  /** The consumer's preallocated landing place for one block. */
  class CapturedNativeBlock<T> {
    const samples: array<T>
    var sampleLen: nat
    var frames: nat
    var metadata: Option<Metadata>

    constructor (capacity: nat, zero: T)
      ensures samples.Length == capacity && fresh(samples) && metadata == None
    {
      samples := new T[capacity](i => zero);
      sampleLen, frames, metadata := 0, 0, None;
    }

    ghost predicate Carries(b: Block<T>)
      reads this, samples
    {
      && metadata == Some(b.meta) && frames == b.frames
      && sampleLen == |b.samples| <= samples.Length
      && samples[..sampleLen] == b.samples
    }

    /** This landing place is not part of the ring itself. */
    ghost predicate Apart(ring: Ring<T>)
    {
      samples as object != ring.frames as object && samples as object != ring.metas as object
    }

    method LoadSamples(ring: Ring<T>, slot: nat, ghost b: Block<T>)
      requires ring.Shape() && slot < ring.native.slots && ring.Holds(slot, b)
      requires |b.samples| == b.frames * ring.native.channels && samples.Length >= ring.samples.Length1 && Apart(ring)
      modifies samples
      ensures samples[..|b.samples|] == b.samples
    {
      var sampleLen := ring.frames[slot] * ring.native.channels;
      for j := 0 to sampleLen
        invariant sampleLen == |b.samples| <= ring.samples.Length1
        invariant ring.Holds(slot, b)
        invariant samples[..j] == b.samples[..j]
      {
        samples[j] := ring.samples[slot, j];
      }
    }
  }

  class RingConsumer<T> {
    const ring: Ring<T>
    var readCursor: nat

    ghost predicate Valid()
      reads this, ring, ring.samples, ring.frames, ring.metas
    {
      ring.Valid() && readCursor == ring.consumed
    }

    constructor (ring: Ring<T>)
      requires ring.Valid() && ring.consumed == 0
      ensures Valid() && this.ring == ring
    {
      this.ring := ring;
      readCursor := 0;
    }

    method TryPop(destination: CapturedNativeBlock<T>) returns (popped: bool)
      requires Valid() && destination.samples.Length >= ring.samples.Length1 && destination.Apart(ring)
      modifies this, ring`consumed, destination, destination.samples
      ensures Valid() && ring.sent == old(ring.sent)
      ensures popped <==> old(ring.Queue()) != []
      ensures popped ==> ring.Queue() == old(ring.Queue())[1..] && destination.Carries(old(ring.Queue())[0])
      ensures !popped ==> ring.Queue() == [] && unchanged(destination) && unchanged(destination.samples)
    {
      if readCursor == ring.published {
        return false;
      }
      var slot := readCursor % ring.native.slots;
      ghost var b := ring.sent[readCursor];
      assert ring.Holds(ring.SlotOf(readCursor), b);
      var frames := ring.frames[slot];
      var sampleLen := frames * ring.native.channels;
      destination.LoadSamples(ring, slot, b);
      destination.sampleLen := sampleLen;
      destination.frames := frames;
      destination.metadata := Some(ring.metas[slot]);
      readCursor := readCursor + 1;
      ring.consumed := readCursor;
      popped := true;
    }
  }
}
