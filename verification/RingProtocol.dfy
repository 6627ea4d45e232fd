/** The ring while both ends run: every access to a shared atomic is one action,
    and the actions of the callback and of the worker interleave freely.

    A slot is a row of atomic words. `published` and `consumed` are each written
    by one thread only, so that thread's own cursor is the counter itself; the
    other thread may read a stale value, but never an older one than it read
    before. Cursors are naturals: the wrap at 2^64 blocks is out of reach. */
module RingProtocol {
  import opened Prelude
  import opened Callback
  import opened CallbackLaws

  datatype Word<T> = Sample(sample: T) | Number(n: nat) | Bits(flags: Flags)

  datatype Machine<T> = Machine(
    // shared
    slots: seq<seq<Word<T>>>, published: nat, consumed: nat,
    // the callback's own: its progress, words stored into the open slot, last `consumed` it loaded
    capture: Capture<T>, storing: Option<nat>, seenConsumed: nat,
    // the worker's own: words loaded of the block being copied, last `published` it loaded
    loading: Option<seq<Word<T>>>, seenPublished: nat, popped: seq<Block<T>>)

  datatype Action<T> =
    | Arrive(call: Call<T>)        // the device invokes the callback
    | ObserveConsumed(seen: nat)   // load `consumed`, then overflow or open a slot
    | StoreWord                    // one relaxed store into the open slot
    | PublishBlock                 // release store of `published`
    | ObservePublished(seen: nat)  // load `published`, then give up or start copying
    | LoadWord                     // one relaxed load from the slot being copied
    | Release                      // release store of `consumed`

  function Capacity(native: Native): nat {
    native.framesPerBlock * native.channels
  }

  function SlotOf(native: Native, k: nat): (slot: nat)
    ensures slot < native.slots
  {
    k % native.slots
  }

  /** Words after the samples: frames, source sequence, first frame, time, discontinuity. */
  const HEADER: nat := 5

  /** Word `at` of a slot holding block `b`. */
  function WordOf<T>(capacity: nat, b: Block<T>, at: nat): Word<T>
    requires at < |b.samples| || capacity <= at < capacity + HEADER
  {
    if at < |b.samples| then Sample(b.samples[at])
    else if at == capacity then Number(b.frames)
    else if at == capacity + 1 then Number(b.meta.sequence)
    else if at == capacity + 2 then Number(b.meta.first)
    else if at == capacity + 3 then Number(b.meta.ns)
    else Bits(b.meta.discontinuity)
  }

  /** Where the j-th store of a block goes: samples first, then the header. */
  function StoreAddress<T>(capacity: nat, b: Block<T>, j: nat): nat
    requires j < |b.samples| + HEADER
  {
    if j < |b.samples| then j else capacity + (j - |b.samples|)
  }

  /** Samples in the block being copied, as told by its first loaded word. */
  function CopySamples<T>(native: Native, got: seq<Word<T>>): nat {
    if got != [] && got[0].Number? then got[0].n * native.channels else 0
  }

  predicate CopyDone<T>(native: Native, got: seq<Word<T>>) {
    got != [] && |got| == CopySamples(native, got) + HEADER
  }

  /** Where the next load comes from: the frame count, the samples, the rest of the header. */
  function LoadAddress<T>(native: Native, got: seq<Word<T>>): nat {
    if got == [] then Capacity(native)
    else if |got| <= CopySamples(native, got) then |got| - 1
    else Capacity(native) + (|got| - CopySamples(native, got))
  }

  function Expand(n: nat): u64 { n % (U64_MAX + 1) }

  /** The block the worker assembles from the words it loaded. */
  function Decode<T>(native: Native, got: seq<Word<T>>, zero: T): Block<T>
    requires CopyDone(native, got)
  {
    var n := CopySamples(native, got);
    Block(
      seq(n, i requires 0 <= i < n => if got[i + 1].Sample? then got[i + 1].sample else zero),
      if got[0].Number? then got[0].n else 0,
      Metadata(
        if got[n + 1].Number? then Expand(got[n + 1].n) else 0,
        if got[n + 2].Number? then Expand(got[n + 2].n) else 0,
        if got[n + 3].Number? then Expand(got[n + 3].n) else 0,
        if got[n + 4].Bits? then got[n + 4].flags else {}))
  }

  predicate CanPublish<T>(native: Native, m: Machine<T>) {
    m.capture.producer.flight.Some? && FlightFits(native, m.capture.producer.flight.value)
  }

  ghost predicate Enabled<T>(native: Native, m: Machine<T>, a: Action<T>) {
    match a
    case Arrive(_) => m.capture.producer.flight.None?
    case ObserveConsumed(v) => CanPublish(native, m) && m.storing.None? && m.seenConsumed <= v <= m.consumed
    case StoreWord => CanPublish(native, m) && m.storing.Some? &&
      m.storing.value < |NextBlock(native, m.capture.producer).samples| + HEADER
    case PublishBlock => CanPublish(native, m) && m.storing.Some? &&
      m.storing.value == |NextBlock(native, m.capture.producer).samples| + HEADER
    case ObservePublished(v) => m.loading.None? && m.seenPublished <= v <= m.published
    case LoadWord => m.loading.Some? && !CopyDone(native, m.loading.value)
    case Release => m.loading.Some? && CopyDone(native, m.loading.value)
  }

  /** Every index the action uses is in bounds, so the program does not panic. */
  ghost predicate InBounds<T>(native: Native, m: Machine<T>, a: Action<T>)
    requires Enabled(native, m, a)
  {
    match a
    case StoreWord =>
      && |m.slots| == native.slots
      && StoreAddress(Capacity(native), NextBlock(native, m.capture.producer), m.storing.value)
         < |m.slots[SlotOf(native, m.published)]|
    case LoadWord =>
      && |m.slots| == native.slots
      && LoadAddress(native, m.loading.value) < |m.slots[SlotOf(native, m.consumed)]|
      && CopySamples(native, m.loading.value) <= Capacity(native)
    case _ => true
  }

  ghost function Do<T>(native: Native, zero: T, m: Machine<T>, a: Action<T>): Machine<T>
    requires Enabled(native, m, a) && InBounds(native, m, a)
  {
    match a
    case Arrive(call) => m.(capture := Enter(native, m.capture, call))
    case ObserveConsumed(v) =>
      if m.published - v >= native.slots
      then m.(seenConsumed := v, capture := Overflow(native, m.capture))
      else m.(seenConsumed := v, storing := Some(0))
    case StoreWord =>
      var b := NextBlock(native, m.capture.producer);
      var slot := SlotOf(native, m.published);
      var at := StoreAddress(Capacity(native), b, m.storing.value);
      m.(slots := m.slots[slot := m.slots[slot][at := WordOf(Capacity(native), b, at)]],
         storing := Some(m.storing.value + 1))
    case PublishBlock =>
      m.(capture := Publish(native, m.capture), published := m.published + 1, storing := None)
    case ObservePublished(v) =>
      if m.consumed == v then m.(seenPublished := v)
      else m.(seenPublished := v, loading := Some([]))
    case LoadWord =>
      var got := m.loading.value;
      m.(loading := Some(got + [m.slots[SlotOf(native, m.consumed)][LoadAddress(native, got)]]))
    case Release =>
      m.(consumed := m.consumed + 1, loading := None,
         popped := m.popped + [Decode(native, m.loading.value, zero)])
  }

  // ---- what every state keeps ----

  ghost predicate InSlot<T>(capacity: nat, b: Block<T>, at: nat) {
    at < |b.samples| || capacity <= at < capacity + HEADER
  }

  ghost predicate Holds<T>(capacity: nat, row: seq<Word<T>>, b: Block<T>) {
    |row| == capacity + HEADER && |b.samples| <= capacity &&
    forall at: nat :: InSlot(capacity, b, at) ==> row[at] == WordOf(capacity, b, at)
  }

  /** The first `j` stores of `b` have reached the row. */
  ghost predicate Stored<T>(capacity: nat, row: seq<Word<T>>, b: Block<T>, j: nat) {
    j <= |b.samples| + HEADER && |row| == capacity + HEADER && |b.samples| <= capacity &&
    forall i :: 0 <= i < j ==> row[StoreAddress(capacity, b, i)] == WordOf(capacity, b, StoreAddress(capacity, b, i))
  }

  /** Word `i` of a copy of `b`, in loading order. */
  function CopyWord<T>(b: Block<T>, i: nat): Word<T>
    requires i < |b.samples| + HEADER
  {
    if i == 0 then Number(b.frames)
    else if i <= |b.samples| then Sample(b.samples[i - 1])
    else if i == |b.samples| + 1 then Number(b.meta.sequence)
    else if i == |b.samples| + 2 then Number(b.meta.first)
    else if i == |b.samples| + 3 then Number(b.meta.ns)
    else Bits(b.meta.discontinuity)
  }

  /** What has been copied so far is part of `b` and of nothing else. */
  ghost predicate Copied<T>(got: seq<Word<T>>, b: Block<T>) {
    |got| <= |b.samples| + HEADER &&
    forall i :: 0 <= i < |got| ==> got[i] == CopyWord(b, i)
  }

  ghost predicate Cursors<T>(native: Native, m: Machine<T>) {
    && |m.capture.enqueued| == m.published
    && m.consumed <= m.seenPublished <= m.published <= m.consumed + native.slots
    && m.seenConsumed <= m.consumed
    && (m.storing.Some? ==> m.capture.producer.flight.Some? && m.published - m.seenConsumed < native.slots)
    && (m.loading.Some? ==> m.consumed < m.seenPublished)
    && |m.slots| == native.slots
    && (forall s :: 0 <= s < native.slots ==> |m.slots[s]| == Capacity(native) + HEADER)
  }

  ghost predicate Published<T>(native: Native, m: Machine<T>)
    requires Cursors(native, m)
  {
    forall k :: m.consumed <= k < m.published ==>
      Holds(Capacity(native), m.slots[SlotOf(native, k)], m.capture.enqueued[k])
  }

  ghost predicate Open<T>(native: Native, m: Machine<T>)
    requires Cursors(native, m) && CaptureInv(native, m.capture)
  {
    m.storing.Some? ==>
      Stored(Capacity(native), m.slots[SlotOf(native, m.published)],
        NextBlock(native, m.capture.producer), m.storing.value)
  }

  ghost predicate Copying<T>(native: Native, m: Machine<T>)
    requires Cursors(native, m)
  {
    && m.popped == m.capture.enqueued[..m.consumed]
    && (m.loading.Some? ==> Copied(m.loading.value, m.capture.enqueued[m.consumed]))
  }

  ghost predicate Inv<T>(native: Native, m: Machine<T>) {
    && CaptureInv(native, m.capture)
    && Cursors(native, m)
    && Published(native, m)
    && Open(native, m)
    && Copying(native, m)
  }

  ghost predicate Initial<T>(native: Native, m: Machine<T>) {
    && m.capture == InitialCapture() && m.storing.None? && m.loading.None? && m.popped == []
    && m.published == m.consumed == m.seenConsumed == m.seenPublished == 0
    && |m.slots| == native.slots
    && (forall s :: 0 <= s < native.slots ==> |m.slots[s]| == Capacity(native) + HEADER)
  }

  /** While the callback fills a slot, no block the worker may still read lives there. */
  lemma SlotExclusive<T>(native: Native, m: Machine<T>, k: nat)
    requires Inv(native, m) && m.storing.Some?
    requires m.consumed <= k < m.published
    ensures SlotOf(native, m.published) != SlotOf(native, k)
  {
    if SlotOf(native, m.published) == SlotOf(native, k) {
      SameSlot(k, m.published, native.slots);
    }
  }

  lemma BlockFits<T>(native: Native, b: Block<T>)
    requires b.frames <= native.framesPerBlock && |b.samples| == b.frames * native.channels
    ensures |b.samples| <= Capacity(native)
  {
    MulMonotone(b.frames, native.framesPerBlock, native.channels);
  }

  lemma CopyProgress<T>(native: Native, m: Machine<T>)
    requires Inv(native, m) && m.loading.Some?
    ensures var b, got := m.capture.enqueued[m.consumed], m.loading.value;
      && |b.samples| == b.frames * native.channels && |b.samples| <= Capacity(native)
      && (got != [] ==> CopySamples(native, got) == |b.samples|)
      && (!CopyDone(native, got) ==> |got| < |b.samples| + HEADER)
      && (CopyDone(native, got) ==> |got| == |b.samples| + HEADER)
  {
    BlockFits(native, m.capture.enqueued[m.consumed]);
  }

  /** No reachable action indexes out of bounds. */
  lemma NeverOutOfBounds<T>(native: Native, m: Machine<T>, a: Action<T>)
    requires Inv(native, m) && Enabled(native, m, a)
    ensures InBounds(native, m, a)
  {
    if a.StoreWord? {
      BlockFits(native, NextBlock(native, m.capture.producer));
    } else if a.LoadWord? {
      CopyProgress(native, m);
    }
  }

  lemma StoreKeeps<T>(native: Native, zero: T, m: Machine<T>)
    requires Inv(native, m) && Enabled(native, m, StoreWord)
    requires InBounds(native, m, StoreWord)
    ensures Inv(native, Do(native, zero, m, StoreWord))
  {
    var d := Do(native, zero, m, StoreWord);
    var slot := SlotOf(native, m.published);
    forall k | m.consumed <= k < m.published
      ensures d.slots[SlotOf(native, k)] == m.slots[SlotOf(native, k)]
    {
      SlotExclusive(native, m, k);
    }
  }

  lemma StoredIsHeld<T>(capacity: nat, row: seq<Word<T>>, b: Block<T>)
    requires Stored(capacity, row, b, |b.samples| + HEADER)
    ensures Holds(capacity, row, b)
  {
    forall at: nat | InSlot(capacity, b, at)
      ensures row[at] == WordOf(capacity, b, at)
    {
      var i := if at < |b.samples| then at else |b.samples| + (at - capacity);
      assert StoreAddress(capacity, b, i) == at;
    }
  }

  lemma PublishStepKeeps<T>(native: Native, zero: T, m: Machine<T>)
    requires Inv(native, m) && Enabled(native, m, PublishBlock)
    ensures Inv(native, Do(native, zero, m, PublishBlock))
  {
    PublishKeeps(native, m.capture);
    StoredIsHeld(Capacity(native), m.slots[SlotOf(native, m.published)], NextBlock(native, m.capture.producer));
  }

  lemma LoadKeeps<T>(native: Native, zero: T, m: Machine<T>)
    requires Inv(native, m) && Enabled(native, m, LoadWord)
    requires InBounds(native, m, LoadWord)
    ensures Inv(native, Do(native, zero, m, LoadWord))
  {
    CopyProgress(native, m);
    var b := m.capture.enqueued[m.consumed];
    var got := m.loading.value;
    var row := m.slots[SlotOf(native, m.consumed)];
    assert Holds(Capacity(native), row, b);
    assert InSlot(Capacity(native), b, LoadAddress(native, got));
    assert row[LoadAddress(native, got)] == CopyWord(b, |got|);
  }

  lemma DecodeCopied<T>(native: Native, got: seq<Word<T>>, b: Block<T>, zero: T)
    requires Copied(got, b) && |got| == |b.samples| + HEADER && |b.samples| == b.frames * native.channels
    ensures CopyDone(native, got) && Decode(native, got, zero) == b
  {
    var n := |b.samples|;
    assert got[0] == CopyWord(b, 0) && got[n + 1] == CopyWord(b, n + 1) && got[n + 2] == CopyWord(b, n + 2);
    assert got[n + 3] == CopyWord(b, n + 3) && got[n + 4] == CopyWord(b, n + 4);
    assert CopySamples(native, got) == n;
    forall i | 0 <= i < n
      ensures got[i + 1] == Sample(b.samples[i])
    {
      assert got[i + 1] == CopyWord(b, i + 1);
    }
    assert Decode(native, got, zero).samples == b.samples;
  }

  /** A finished copy is the block that was published, entire. */
  lemma CopyIsWhole<T>(native: Native, zero: T, m: Machine<T>)
    requires Inv(native, m) && Enabled(native, m, Release)
    ensures Decode(native, m.loading.value, zero) == m.capture.enqueued[m.consumed]
  {
    CopyProgress(native, m);
    DecodeCopied(native, m.loading.value, m.capture.enqueued[m.consumed], zero);
  }

  lemma ReleaseKeeps<T>(native: Native, zero: T, m: Machine<T>)
    requires Inv(native, m) && Enabled(native, m, Release)
    ensures Inv(native, Do(native, zero, m, Release))
  {
    CopyIsWhole(native, zero, m);
  }

  lemma ObserveConsumedKeeps<T>(native: Native, zero: T, m: Machine<T>, v: nat)
    requires Inv(native, m) && Enabled(native, m, ObserveConsumed(v))
    ensures Inv(native, Do(native, zero, m, ObserveConsumed(v)))
  {
    OverflowKeeps(native, m.capture);
    BlockFits(native, NextBlock(native, m.capture.producer));
  }

  lemma ArriveKeeps<T>(native: Native, zero: T, m: Machine<T>, call: Call<T>)
    requires Inv(native, m) && Enabled(native, m, Arrive(call))
    ensures Inv(native, Do(native, zero, m, Arrive(call)))
  {
    EnterKeeps(native, m.capture, call);
  }

  lemma StepKeeps<T>(native: Native, zero: T, m: Machine<T>, a: Action<T>)
    requires Inv(native, m) && Enabled(native, m, a)
    ensures InBounds(native, m, a) && Inv(native, Do(native, zero, m, a))
  {
    NeverOutOfBounds(native, m, a);
    match a
    case Arrive(call) => ArriveKeeps(native, zero, m, call);
    case ObserveConsumed(v) => ObserveConsumedKeeps(native, zero, m, v);
    case StoreWord => StoreKeeps(native, zero, m);
    case PublishBlock => PublishStepKeeps(native, zero, m);
    case ObservePublished(v) =>
    case LoadWord => LoadKeeps(native, zero, m);
    case Release => ReleaseKeeps(native, zero, m);
  }

  // ---- whole runs ----

  /** `states` and `actions` are one interleaving, from any state onwards. */
  ghost predicate IsRun<T>(native: Native, zero: T, states: seq<Machine<T>>, actions: seq<Action<T>>) {
    && |states| == |actions| + 1
    && forall i :: 0 <= i < |actions| ==>
         && Enabled(native, states[i], actions[i])
         && InBounds(native, states[i], actions[i])
         && states[i + 1] == Do(native, zero, states[i], actions[i])
  }

  lemma {:induction false} RunKeeps<T>(
      native: Native, zero: T, states: seq<Machine<T>>, actions: seq<Action<T>>, i: nat)
    requires IsRun(native, zero, states, actions) && Initial(native, states[0]) && i < |states|
    ensures Inv(native, states[i])
  {
    if i == 0 {
      InitialInv<T>(native);
    } else {
      RunKeeps(native, zero, states, actions, i - 1);
      StepKeeps(native, zero, states[i - 1], actions[i - 1]);
    }
  }

  /** Under every interleaving: blocks come out whole and in order, the rest are in
      the ring unharmed, and the callback is never in a slot the worker may read. */
  lemma RingIsAQueue<T>(native: Native, zero: T, states: seq<Machine<T>>, actions: seq<Action<T>>, i: nat)
    requires IsRun(native, zero, states, actions) && Initial(native, states[0]) && i < |states|
    ensures var m := states[i];
      && m.published == |m.capture.enqueued| && m.consumed <= m.published <= m.consumed + native.slots
      && m.popped == m.capture.enqueued[..m.consumed]
      && (forall k :: m.consumed <= k < m.published ==>
            SlotOf(native, k) < |m.slots| && Holds(Capacity(native), m.slots[SlotOf(native, k)], m.capture.enqueued[k]))
      && (m.storing.Some? ==>
            forall k :: m.consumed <= k < m.published ==> SlotOf(native, m.published) != SlotOf(native, k))
      && CaptureInv(native, m.capture)
  {
    RunKeeps(native, zero, states, actions, i);
    var m := states[i];
    if m.storing.Some? {
      forall k | m.consumed <= k < m.published
        ensures SlotOf(native, m.published) != SlotOf(native, k)
      {
        SlotExclusive(native, m, k);
      }
    }
  }

  /** Nothing in a run is stuck on a bad index, whatever runs next. */
  lemma RunNeverPanics<T>(native: Native, zero: T, states: seq<Machine<T>>, actions: seq<Action<T>>, a: Action<T>)
    requires IsRun(native, zero, states, actions) && Initial(native, states[0])
    requires Enabled(native, states[|actions|], a)
    ensures InBounds(native, states[|actions|], a)
  {
    RunKeeps(native, zero, states, actions, |actions|);
    NeverOutOfBounds(native, states[|actions|], a);
  }

  /** Neither counter ever goes back. */
  lemma {:induction false} CountersGrow<T>(
      native: Native, zero: T, states: seq<Machine<T>>, actions: seq<Action<T>>, i: nat, j: nat)
    requires IsRun(native, zero, states, actions) && i <= j < |states|
    ensures states[i].consumed <= states[j].consumed && states[i].published <= states[j].published
  {
    if i < j {
      CountersGrow(native, zero, states, actions, i, j - 1);
      OneStepGrows(native, zero, states[j - 1], actions[j - 1]);
    }
  }

  lemma OneStepGrows<T>(native: Native, zero: T, m: Machine<T>, a: Action<T>)
    requires Enabled(native, m, a) && InBounds(native, m, a)
    ensures var d := Do(native, zero, m, a);
      m.consumed <= d.consumed && m.published <= d.published
  {
  }

  /** A diagnostic snapshot loads `consumed` and only later `published`, so the depth it
      subtracts cannot underflow: not even when both loads are stale, the second as stale
      as the worker's own last load of it allows. */
  lemma SnapshotNeverUnderflows<T>(
      native: Native, zero: T, states: seq<Machine<T>>, actions: seq<Action<T>>,
      i: nat, consumed: nat, j: nat, published: nat)
    requires IsRun(native, zero, states, actions) && Initial(native, states[0])
    requires i <= j < |states|
    requires consumed <= states[i].consumed
    requires states[j].seenPublished <= published <= states[j].published
    ensures consumed <= published
  {
    RunKeeps(native, zero, states, actions, j);
    CountersGrow(native, zero, states, actions, i, j);
  }

  /** Within a callback an action publishes a block, drops the rest, or leaves the producer alone. */
  lemma StepOfCallback<T>(native: Native, zero: T, m: Machine<T>, a: Action<T>)
    requires FlightOk(native, m.capture.producer) && m.capture.producer.flight.Some?
    requires Enabled(native, m, a) && InBounds(native, m, a)
    ensures var next := Do(native, zero, m, a).capture;
      var d := Do(native, zero, m, a);
      && (if a.PublishBlock? then next == Publish(native, m.capture) && d.published == m.published + 1
          else d.published == m.published)
      && (!a.PublishBlock? ==>
            || next == m.capture
            || (next == Overflow(native, m.capture) && next.producer.flight.None?
                && d.published - d.seenConsumed >= native.slots))
  {
  }

  lemma FlightAt<T>(native: Native, zero: T, states: seq<Machine<T>>, actions: seq<Action<T>>, i: nat)
    requires IsRun(native, zero, states, actions) && Initial(native, states[0]) && i < |states|
    ensures FlightOk(native, states[i].capture.producer)
  {
    RunKeeps(native, zero, states, actions, i);
  }

  lemma StepThenLoop<T>(native: Native, zero: T, m: Machine<T>, a: Action<T>, end: nat)
    requires FlightOk(native, m.capture.producer) && m.capture.producer.flight.Some?
    requires Enabled(native, m, a) && InBounds(native, m, a)
    requires var d := Do(native, zero, m, a);
      && FlightOk(native, d.capture.producer) && d.capture.producer.flight.Some? && d.published <= end
    ensures m.published <= end
    ensures var d := Do(native, zero, m, a);
      && WriteLoop(native, m.capture, end - m.published) == WriteLoop(native, d.capture, end - d.published)
      && d.capture.producer.counters.overflows == m.capture.producer.counters.overflows
  {
    StepOfCallback(native, zero, m, a);
  }

  lemma LastStepOfCallback<T>(native: Native, zero: T, m: Machine<T>, a: Action<T>)
    requires FlightOk(native, m.capture.producer) && m.capture.producer.flight.Some?
    requires Enabled(native, m, a) && InBounds(native, m, a)
    requires Do(native, zero, m, a).capture.producer.flight.None?
    ensures var d := Do(native, zero, m, a);
      && m.published <= d.published
      && WriteLoop(native, m.capture, d.published - m.published).0 == d.capture
      && (d.capture.producer.counters.overflows > m.capture.producer.counters.overflows ==>
            d.published - d.seenConsumed >= native.slots)
  {
    StepOfCallback(native, zero, m, a);
  }

  /** An interleaved callback has the effect of an uninterrupted one that finds as much room
      as it published blocks; and it dropped frames only because, at its last load of
      `consumed`, the ring was full. */
  lemma {:induction false} CallbackIsAtomic<T>(
      native: Native, zero: T, states: seq<Machine<T>>, actions: seq<Action<T>>, i: nat, j: nat)
    requires IsRun(native, zero, states, actions) && Initial(native, states[0])
    requires i < j < |states|
    requires forall k :: i <= k < j ==> states[k].capture.producer.flight.Some?
    requires states[j].capture.producer.flight.None?
    ensures FlightOk(native, states[i].capture.producer) && states[i].published <= states[j].published
    ensures states[j].capture == WriteLoop(native, states[i].capture, states[j].published - states[i].published).0
    ensures states[j].capture.producer.counters.overflows > states[i].capture.producer.counters.overflows ==>
      states[j].published - states[j].seenConsumed >= native.slots
    decreases j - i
  {
    FlightAt(native, zero, states, actions, i);
    FlightAt(native, zero, states, actions, j);
    if i + 1 < j {
      FlightAt(native, zero, states, actions, i + 1);
      CallbackIsAtomic(native, zero, states, actions, i + 1, j);
      StepThenLoop(native, zero, states[i], actions[i], states[j].published);
    } else {
      LastStepOfCallback(native, zero, states[i], actions[i]);
    }
  }
}
