/** The pre-roll ring and the utterance buffer of processing.rs. */
module Buffers {
  import opened Prelude
  import opened Callback

  datatype SampleMetadata = SampleMetadata(outputIndex: u64, sourceFirst: u64, ns: u64, discontinuity: Flags)

  const EMPTY_SAMPLE_METADATA := SampleMetadata(0, 0, 0, {})

  datatype Timed<T> = Timed(sample: T, meta: SampleMetadata)

  function MetadataOf(source: Metadata, first: u64, offset: nat, targetRate: Positive): SampleMetadata {
    SampleMetadata(
      Sat(first + offset),
      source.first,
      Sat(source.ns + Sat(offset * NANOS_PER_SECOND) / targetRate),
      if offset == 0 then source.discontinuity else {})
  }

  /** A block's output samples, each with the metadata it is stored under. */
  function Stamped<T>(samples: seq<T>, source: Metadata, first: u64, targetRate: Positive): (timed: seq<Timed<T>>)
    ensures |timed| == |samples|
  {
    seq(|samples|, i requires 0 <= i < |samples| => Timed(samples[i], MetadataOf(source, first, i, targetRate)))
  }

  /** The stamp of sample `m` of a block, the `k`-th of everything produced: its number, the
      source frame at which its block begins, the time of that frame plus `m` samples, and, on
      the block's first sample alone, the block's flags. */
  ghost predicate StampedAs(meta: SampleMetadata, k: nat, block: Metadata, m: nat, rate: Positive) {
    && meta.outputIndex == Sat(k)
    && meta.sourceFirst == block.first
    && meta.ns == Sat(block.ns + Sat(m * 1_000_000_000) / rate)
    && meta.discontinuity == if m == 0 then block.discontinuity else {}
  }

  lemma StampOfSample<T>(samples: seq<T>, block: Metadata, before: nat, m: nat, rate: Positive)
    requires m < |samples|
    ensures StampedAs(Stamped(samples, block, Sat(before), rate)[m].meta, before + m, block, m, rate)
  {
    SatTwice(before, m);
  }

  function Samples<T>(timed: seq<Timed<T>>): (samples: seq<T>)
    ensures |samples| == |timed|
  {
    seq(|timed|, i requires 0 <= i < |timed| => timed[i].sample)
  }

  /** The last `n`, or all if there are not that many. */
  function LastOf<T>(n: nat, s: seq<T>): (last: seq<T>)
    ensures |last| == Min(n, |s|)
    ensures forall i :: 0 <= i < |last| ==> last[i] == s[|s| - |last| + i]
  {
    if |s| <= n then s else s[|s| - n..]
  }

  /** The first `n`, or all if there are not that many. */
  function FirstOf<T>(n: nat, s: seq<T>): (first: seq<T>)
    ensures |first| == Min(n, |s|)
    ensures forall i :: 0 <= i < |first| ==> first[i] == s[i]
  {
    if |s| <= n then s else s[..n]
  }

  lemma LastOfAppend<T>(n: nat, a: seq<T>, b: seq<T>)
    ensures LastOf(n, LastOf(n, a) + b) == LastOf(n, a + b)
  {
    if |a| > n {
      var tail := a[|a| - n..];
      if |b| <= n {
        assert (tail + b)[|b|..] == (a + b)[|a + b| - n..];
      } else {
        assert (tail + b)[|b|..] == (a + b)[|a| + |b| - n..];
      }
    }
  }

  lemma LastOfNext<T>(n: nat, a: seq<T>, b: seq<T>, k: nat)
    requires k < |b|
    ensures LastOf(n, LastOf(n, a + b[..k]) + [b[k]]) == LastOf(n, a + b[..k + 1])
  {
    LastOfAppend(n, a + b[..k], [b[k]]);
    assert a + b[..k + 1] == a + b[..k] + [b[k]];
  }

  lemma FirstOfAppend<T>(n: nat, a: seq<T>, b: seq<T>)
    ensures FirstOf(n, FirstOf(n, a) + b) == FirstOf(n, a + b)
  {
  }

  lemma WrapOnce(a: nat, c: Positive)
    requires a < c + c
    ensures a % c == if a < c then a else a - c
  {
    if a >= c { SameSlotBelow(a, c); }
  }

  lemma SameSlotBelow(a: nat, c: Positive)
    requires c <= a < c + c
    ensures a % c == a - c
  {
    assert a / c == 1;
  }

  class TimedRingBuffer<T> {
    const samples: array<T>
    const metadata: array<SampleMetadata>
    var start: nat
    var len: nat

    ghost predicate Valid()
      reads this
    {
      && samples.Length == metadata.Length
      && samples as object != metadata as object
      && len <= samples.Length
      && (samples.Length > 0 ==> start < samples.Length)
    }

    /** Where the i-th oldest retained sample lives. */
    function IndexOf(i: nat): nat
      requires samples.Length > 0
      reads this
    {
      (start + i) % samples.Length
    }

    ghost function Contents(): (c: seq<Timed<T>>)
      requires Valid()
      reads this, samples, metadata
      ensures |c| == len
    {
      seq(len, i requires 0 <= i < len && Valid() reads this, samples, metadata =>
        Timed(samples[IndexOf(i)], metadata[IndexOf(i)]))
    }

    constructor (capacity: nat, zero: T)
      ensures Valid() && samples.Length == capacity && Contents() == []
      ensures fresh(samples) && fresh(metadata)
    {
      samples := new T[capacity](i => zero);
      metadata := new SampleMetadata[capacity](i => EMPTY_SAMPLE_METADATA);
      start, len := 0, 0;
    }

    /** One sample into a free place. */
    method Append(sample: T, meta: SampleMetadata)
      requires Valid() && len < samples.Length
      modifies this`len, samples, metadata
      ensures Valid() && Contents() == old(Contents()) + [Timed(sample, meta)]
    {
      ghost var capacity, at := samples.Length, start + len;
      WrapOnce(at, capacity);
      var index := (start + len) % samples.Length;
      forall i | 0 <= i < len ensures IndexOf(i) != index { WrapOnce(start + i, capacity); }
      samples[index] := sample;
      metadata[index] := meta;
      len := len + 1;
    }

    /** One sample over the oldest of a full ring. */
    method Replace(sample: T, meta: SampleMetadata)
      requires Valid() && len == samples.Length > 0
      modifies this`start, samples, metadata
      ensures Valid() && Contents() == old(Contents())[1..] + [Timed(sample, meta)]
    {
      ghost var capacity, oldest := samples.Length, start;
      samples[start] := sample;
      metadata[start] := meta;
      WrapOnce(start + 1, capacity);
      start := (start + 1) % samples.Length;
      forall i | 0 <= i < len
        ensures IndexOf(i) == if i == len - 1 then oldest else (oldest + (i + 1)) % capacity
        ensures i < len - 1 ==> IndexOf(i) != oldest
      {
        WrapOnce(start + i, capacity);
        WrapOnce(oldest + (i + 1), capacity);
      }
    }

    /** One sample in; the oldest out if there is no free place. */
    method PushOne(sample: T, meta: SampleMetadata) returns (overwrote: bool)
      requires Valid() && samples.Length > 0
      modifies this, samples, metadata
      ensures Valid()
      ensures Contents() == LastOf(samples.Length, old(Contents()) + [Timed(sample, meta)])
      ensures overwrote <==> old(len) == samples.Length
    {
      overwrote := len == samples.Length;
      if overwrote {
        Replace(sample, meta);
      } else {
        Append(sample, meta);
      }
    }

    method PushBlock(block: seq<T>, source: Metadata, first: u64, targetRate: Positive) returns (overwritten: nat)
      requires Valid() && samples.Length > 0
      modifies this, samples, metadata
      ensures Valid()
      ensures Contents() == LastOf(samples.Length, old(Contents()) + Stamped(block, source, first, targetRate))
      ensures overwritten == old(len) + |block| - len
    {
      overwritten := 0;
      ghost var timed := Stamped(block, source, first, targetRate);
      assert old(Contents()) + timed[..0] == old(Contents());
      for offset := 0 to |block|
        invariant Valid()
        invariant Contents() == LastOf(samples.Length, old(Contents()) + timed[..offset])
        invariant overwritten == old(len) + offset - len
      {
        LastOfNext(samples.Length, old(Contents()), timed, offset);
        var overwrote := PushOne(block[offset], MetadataOf(source, first, offset, targetRate));
        if overwrote { overwritten := overwritten + 1; }
      }
      assert timed[..|block|] == timed;
    }

    method CopyInto(destination: TimedUtteranceBuffer<T>) returns (copied: nat)
      requires Valid() && destination.Valid() && destination.len == 0
      requires len <= destination.samples.Length
      requires destination.samples != samples && destination.metadata != metadata
      requires destination.samples as object != metadata as object
      requires destination.metadata as object != samples as object
      modifies destination, destination.samples, destination.metadata
      ensures destination.Valid() && destination.Contents() == Contents() && copied == len
    {
      for offset := 0 to len
        invariant destination.Valid() && destination.len == offset
        invariant destination.Contents() == Contents()[..offset]
      {
        var index := (start + offset) % samples.Length;
        assert Contents()[offset] == Timed(samples[index], metadata[index]);
        var accepted := destination.Push(samples[index], metadata[index]);
        assert accepted;
      }
      copied := len;
    }
  }

  class TimedUtteranceBuffer<T> {
    const zero: T
    const samples: array<T>
    const metadata: array<SampleMetadata>
    var len: nat

    ghost predicate Valid()
      reads this
    {
      && samples.Length == metadata.Length
      && samples as object != metadata as object
      && len <= samples.Length
    }

    ghost function Contents(): (c: seq<Timed<T>>)
      requires Valid()
      reads this, samples, metadata
      ensures |c| == len
    {
      seq(len, i requires 0 <= i < len && Valid() reads this, samples, metadata =>
        Timed(samples[i], metadata[i]))
    }

    constructor (capacity: nat, zero: T)
      ensures Valid() && samples.Length == capacity && Contents() == []
      ensures fresh(samples) && fresh(metadata)
    {
      this.zero := zero;
      samples := new T[capacity](i => zero);
      metadata := new SampleMetadata[capacity](i => EMPTY_SAMPLE_METADATA);
      len := 0;
    }

    method Push(sample: T, meta: SampleMetadata) returns (accepted: bool)
      requires Valid()
      modifies this, samples, metadata
      ensures Valid()
      ensures accepted <==> old(len) < samples.Length
      ensures Contents() == FirstOf(samples.Length, old(Contents()) + [Timed(sample, meta)])
    {
      if len == samples.Length {
        return false;
      }
      samples[len] := sample;
      metadata[len] := meta;
      len := len + 1;
      accepted := true;
    }

    method AppendBlock(block: seq<T>, source: Metadata, first: u64, targetRate: Positive)
        returns (accepted: nat, rejected: nat)
      requires Valid()
      modifies this, samples, metadata
      ensures Valid()
      ensures Contents() == FirstOf(samples.Length, old(Contents()) + Stamped(block, source, first, targetRate))
      ensures accepted + rejected == |block| && accepted == len - old(len)
    {
      var available := samples.Length - len;
      accepted := Min(available, |block|);
      ghost var timed := Stamped(block, source, first, targetRate);
      for offset := 0 to accepted
        invariant Valid() && len == old(len) + offset
        invariant Contents() == old(Contents()) + timed[..offset]
      {
        var pushed := Push(block[offset], MetadataOf(source, first, offset, targetRate));
        assert pushed;
        assert timed[..offset + 1] == timed[..offset] + [timed[offset]];
      }
      rejected := |block| - accepted;
    }

    method Clear()
      requires Valid()
      modifies this, samples, metadata
      ensures Valid() && Contents() == []
      ensures forall i :: 0 <= i < old(len) ==> samples[i] == zero && metadata[i] == EMPTY_SAMPLE_METADATA
    {
      for i := 0 to len
        invariant unchanged(this)
        invariant forall j :: 0 <= j < i ==> samples[j] == zero && metadata[j] == EMPTY_SAMPLE_METADATA
      {
        samples[i] := zero;
        metadata[i] := EMPTY_SAMPLE_METADATA;
      }
      len := 0;
    }
  }
}
