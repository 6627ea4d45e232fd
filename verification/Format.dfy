/** Channel selection and averaging as the pipeline uses them (format.rs). */
module Format {
  import opened Prelude

  datatype ChannelPolicy = Select(channelIndex: nat) | AverageAllExplicit

  datatype FormatError =
    | ChannelOutOfRange(requested: nat, available: nat)
    | InterleavedLength(samples: nat, channels: nat)
    | OutputTooSmall(required: nat, available: nat)

  /** The floating-point mean of one frame, given its samples and the divisor. */
  type Average<!T> = (seq<T>, nat) -> T

  predicate PolicyFits(policy: ChannelPolicy, channels: Positive) {
    policy.Select? ==> policy.channelIndex < channels
  }

  function Validate(policy: ChannelPolicy, channels: Positive): (r: Result<(), FormatError>)
    ensures r.Ok? <==> PolicyFits(policy, channels)
  {
    if policy.Select? && policy.channelIndex >= channels
    then Err(ChannelOutOfRange(policy.channelIndex, channels))
    else Ok(())
  }

  function MixFrame<T>(channels: Positive, policy: ChannelPolicy, average: Average<T>, frame: seq<T>): T
    requires PolicyFits(policy, channels) && |frame| == channels
  {
    match policy
    case Select(c) => frame[c]
    case AverageAllExplicit => average(frame, channels)
  }

  /** Frame by frame, the mono signal an interleaved block stands for. */
  function Mono<T>(channels: Positive, policy: ChannelPolicy, average: Average<T>, interleaved: seq<T>): (mono: seq<T>)
    requires PolicyFits(policy, channels)
    ensures |mono| == |interleaved| / channels
    decreases |interleaved|
  {
    if |interleaved| < channels then []
    else
      OneFrame(interleaved, channels);
      [MixFrame(channels, policy, average, interleaved[..channels])]
        + Mono(channels, policy, average, interleaved[channels..])
  }

  lemma OneFrame<T>(s: seq<T>, channels: Positive)
    requires |s| >= channels
    ensures |s| / channels == (|s| - channels) / channels + 1
  {
    FloorAtLeast((|s| - channels) / channels + 1, |s|, channels);
    FloorAtLeast((|s| - channels) / channels + 2, |s|, channels);
    FloorAtLeast((|s| - channels) / channels, |s| - channels, channels);
    FloorAtLeast((|s| - channels) / channels + 1, |s| - channels, channels);
    Distribute((|s| - channels) / channels, 1, channels);
    Distribute((|s| - channels) / channels + 1, 1, channels);
  }

  /** Mono frame `f` is made of the f-th group of `channels` samples and of nothing else. */
  lemma {:induction false} MonoAt<T>(
      channels: Positive, policy: ChannelPolicy, average: Average<T>, interleaved: seq<T>, f: nat)
    requires PolicyFits(policy, channels) && f < |interleaved| / channels
    ensures f * channels + channels <= |interleaved|
    ensures Mono(channels, policy, average, interleaved)[f]
         == MixFrame(channels, policy, average, interleaved[f * channels..f * channels + channels])
    decreases f
  {
    var at := f * channels;
    FloorAtLeast(f + 1, |interleaved|, channels);
    NextFrame(f, f + 1, channels);
    OneFrame(interleaved, channels);
    if f > 0 {
      var rest := interleaved[channels..];
      MonoAt(channels, policy, average, rest, f - 1);
      NextFrame(f - 1, f, channels);
      assert rest[at - channels..at] == interleaved[at..at + channels];
    }
  }

  /** Under a selection mono frame `f` is the chosen channel of interleaved frame `f`; under
      averaging it is the average of all of that frame. */
  lemma MonoIs<T>(channels: Positive, policy: ChannelPolicy, average: Average<T>, interleaved: seq<T>, f: nat)
    requires PolicyFits(policy, channels) && f < |interleaved| / channels
    ensures f * channels + channels <= |interleaved|
    ensures var mono := Mono(channels, policy, average, interleaved);
      match policy
      case Select(c) => mono[f] == interleaved[f * channels + c]
      case AverageAllExplicit =>
        mono[f] == average(interleaved[f * channels..f * channels + channels], channels)
  {
    MonoAt(channels, policy, average, interleaved, f);
  }

  /** Downmixing does not care where an interleaved stream is cut, between frames. */
  lemma {:induction false} MonoConcat<T>(
      channels: Positive, policy: ChannelPolicy, average: Average<T>, a: seq<T>, frames: nat, b: seq<T>)
    requires PolicyFits(policy, channels) && |a| == frames * channels
    ensures Mono(channels, policy, average, a + b)
         == Mono(channels, policy, average, a) + Mono(channels, policy, average, b)
    decreases frames
  {
    if frames == 0 {
      assert a + b == b;
    } else {
      Distribute(frames, 1, channels);
      MulMonotone(1, frames, channels);
      assert (a + b)[..channels] == a[..channels];
      assert (a + b)[channels..] == a[channels..] + b;
      MonoConcat(channels, policy, average, a[channels..], frames - 1, b);
    }
  }

  lemma MonoSnoc<T>(
      channels: Positive, policy: ChannelPolicy, average: Average<T>, a: seq<T>, frames: nat, frame: seq<T>)
    requires PolicyFits(policy, channels) && |a| == frames * channels && |frame| == channels
    ensures Mono(channels, policy, average, a + frame)
         == Mono(channels, policy, average, a) + [MixFrame(channels, policy, average, frame)]
  {
    MonoConcat(channels, policy, average, a, frames, frame);
    assert frame[..channels] == frame && frame[channels..] == [];
  }

  method DownmixInto<T>(interleaved: array<T>, len: nat, channels: Positive, policy: ChannelPolicy,
                        average: Average<T>, output: array<T>) returns (r: Result<nat, FormatError>)
    requires len <= interleaved.Length && interleaved != output
    modifies output
    ensures r.Ok? <==> PolicyFits(policy, channels) && len % channels == 0 && len / channels <= output.Length
    ensures r.Ok? ==>
      && r.value == len / channels
      && output[..r.value] == Mono(channels, policy, average, interleaved[..len])
    ensures r.Ok? ==> forall f :: 0 <= f < r.value ==>
      && f * channels + channels <= len
      && match policy
         case Select(c) => output[f] == interleaved[f * channels + c]
         case AverageAllExplicit =>
           output[f] == average(interleaved[f * channels..f * channels + channels], channels)
    ensures r.Err? ==>
      && output[..] == old(output[..])
      && match r.error
         case ChannelOutOfRange(requested, available) =>
           policy == Select(requested) && available == channels <= requested
         case InterleavedLength(samples, n) =>
           PolicyFits(policy, channels) && samples == len && n == channels && len % channels != 0
         case OutputTooSmall(required, available) =>
           && PolicyFits(policy, channels) && len % channels == 0
           && required == len / channels > available == output.Length
  {
    var valid := Validate(policy, channels);
    if valid.Err? {
      return Err(valid.error);
    }
    if len % channels != 0 {
      return Err(InterleavedLength(len, channels));
    }
    var frames := len / channels;
    if output.Length < frames {
      return Err(OutputTooSmall(frames, output.Length));
    }
    MixFrames(interleaved, len, frames, channels, policy, average, output);
    forall f | 0 <= f < frames
      ensures f * channels + channels <= len
      ensures match policy
        case Select(c) => output[f] == interleaved[f * channels + c]
        case AverageAllExplicit =>
          output[f] == average(interleaved[f * channels..f * channels + channels], channels)
    {
      MonoIs(channels, policy, average, interleaved[..len], f);
      assert output[f] == output[..frames][f];
      assert interleaved[..len][f * channels..f * channels + channels]
        == interleaved[f * channels..f * channels + channels];
    }
    r := Ok(frames);
  }

  method MixFrames<T>(interleaved: array<T>, len: nat, frames: nat, channels: Positive, policy: ChannelPolicy,
                      average: Average<T>, output: array<T>)
    requires len <= interleaved.Length && interleaved != output && PolicyFits(policy, channels)
    requires len == frames * channels && frames <= output.Length
    modifies output
    ensures output[..frames] == Mono(channels, policy, average, interleaved[..len])
  {
    var at := 0;
    for f := 0 to frames
      invariant at == f * channels && at <= len
      invariant output[..f] == Mono(channels, policy, average, interleaved[..at])
    {
      NextFrame(f, frames, channels);
      MonoSnoc(channels, policy, average, interleaved[..at], f, interleaved[at..at + channels]);
      assert interleaved[..at + channels] == interleaved[..at] + interleaved[at..at + channels];
      output[f] := MixOne(interleaved, at, channels, policy, average);
      at := at + channels;
    }
  }

  lemma NextFrame(f: nat, frames: nat, channels: Positive)
    requires f < frames
    ensures (f + 1) * channels == f * channels + channels <= frames * channels
  {
    Distribute(f, 1, channels);
    MulMonotone(f + 1, frames, channels);
  }

  method MixOne<T>(interleaved: array<T>, at: nat, channels: Positive, policy: ChannelPolicy, average: Average<T>)
      returns (mixed: T)
    requires PolicyFits(policy, channels) && at + channels <= interleaved.Length
    ensures mixed == MixFrame(channels, policy, average, interleaved[at..at + channels])
  {
    var frame := interleaved[at..at + channels];
    match policy {
      case Select(channelIndex) => mixed := frame[channelIndex];
      case AverageAllExplicit => mixed := average(frame, channels);
    }
  }
}
