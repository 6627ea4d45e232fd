/** The streaming linear resampler of processing.rs, against its closed form.

    Sample values are opaque: `Lerp` stands for the one floating-point
    expression `previous + (current - previous) * fraction`, taking the fraction
    as its exact numerator and denominator. */
module Resampler {
  import opened Prelude

  datatype Rates = Rates(source: Positive, target: Positive)

  type Lerp<!T> = (T, T, nat, nat) -> T

  /** How many samples `n` frames after a reset have produced. */
  function Count(r: Rates, n: nat): nat {
    if n == 0 then 0 else (n - 1) * r.target / r.source + 1
  }

  /** Sample `k` lies at source position k*S/T: between frames ceil(k*S/T)-1 and ceil(k*S/T). */
  function SampleAt<T>(r: Rates, lerp: Lerp<T>, frames: seq<T>, k: nat): T
    requires k < Count(r, |frames|)
  {
    if k == 0 then frames[0]
    else
      var i := CeilDiv(k * r.source, r.target);
      SamplePosition(r, |frames|, k);
      lerp(frames[i - 1], frames[i], k * r.source - (i - 1) * r.target, r.target)
  }

  function Resampled<T>(r: Rates, lerp: Lerp<T>, frames: seq<T>): (samples: seq<T>)
    ensures |samples| == Count(r, |frames|)
  {
    seq(Count(r, |frames|), k requires 0 <= k < Count(r, |frames|) => SampleAt(r, lerp, frames, k))
  }

  /** The interpolation bracket exists and the fraction lies in (0, 1]. */
  lemma SamplePosition(r: Rates, n: nat, k: nat)
    requires 0 < k < Count(r, n)
    ensures var i := CeilDiv(k * r.source, r.target);
            1 <= i < n && 0 < k * r.source - (i - 1) * r.target <= r.target
  {
    var i := CeilDiv(k * r.source, r.target);
    FloorAtLeast(k, (n - 1) * r.target, r.source);
    CeilAtMost(k * r.source, r.target, n - 1);
    CeilAtMost(k * r.source, r.target, 0);
    assert k * r.source >= 1 * r.source by { MulMonotone(1, k, r.source); }
    CeilAtMost(k * r.source, r.target, i);
    CeilAtMost(k * r.source, r.target, i - 1);
    assert i * r.target == (i - 1) * r.target + r.target;
  }

  lemma CountMonotone(r: Rates, m: nat, n: nat)
    requires m <= n
    ensures Count(r, m) <= Count(r, n)
  {
    if m > 0 {
      MulMonotone(m - 1, n - 1, r.target);
      FloorAtLeast((m - 1) * r.target / r.source, (m - 1) * r.target, r.source);
      FloorAtLeast((m - 1) * r.target / r.source, (n - 1) * r.target, r.source);
    }
  }

  /** Frame `n` (n >= 1) makes exactly the samples k with Count(n) <= k and k*S <= n*T due. */
  lemma DueAt(r: Rates, n: nat, k: nat)
    requires n >= 1
    ensures k * r.source <= n * r.target <==> k < Count(r, n + 1)
    ensures k >= Count(r, n) ==> k * r.source > (n - 1) * r.target
    ensures Count(r, n) <= k < Count(r, n + 1) ==> CeilDiv(k * r.source, r.target) == n && k > 0
  {
    FloorAtLeast(k, n * r.target, r.source);
    FloorAtLeast(k, (n - 1) * r.target, r.source);
    if Count(r, n) <= k < Count(r, n + 1) {
      CeilAtMost(k * r.source, r.target, n);
      CeilAtMost(k * r.source, r.target, n - 1);
    }
  }

  /** Frames that arrive later never change a sample already produced. */
  lemma ResampledPrefix<T>(r: Rates, lerp: Lerp<T>, a: seq<T>, b: seq<T>)
    ensures Count(r, |a|) <= Count(r, |a + b|)
    ensures Resampled(r, lerp, a + b)[..Count(r, |a|)] == Resampled(r, lerp, a)
  {
    CountMonotone(r, |a|, |a + b|);
    forall k | 0 <= k < Count(r, |a|)
      ensures SampleAt(r, lerp, a + b, k) == SampleAt(r, lerp, a, k)
    {
      if k > 0 { SamplePosition(r, |a|, k); }
    }
  }

  /** What feeding `chunk` after `history` adds to the output. */
  function Added<T>(r: Rates, lerp: Lerp<T>, history: seq<T>, chunk: seq<T>): (samples: seq<T>)
    ensures |samples| + Count(r, |history|) == Count(r, |history| + |chunk|)
  {
    ResampledPrefix(r, lerp, history, chunk);
    Resampled(r, lerp, history + chunk)[Count(r, |history|)..]
  }

  /** Chunk invariance: cutting the input in two gives the same output. */
  lemma AddedSplits<T>(r: Rates, lerp: Lerp<T>, history: seq<T>, a: seq<T>, b: seq<T>)
    ensures Added(r, lerp, history, a + b)
         == Added(r, lerp, history, a) + Added(r, lerp, history + a, b)
  {
    assert history + (a + b) == (history + a) + b;
    ResampledPrefix(r, lerp, history, a);
    ResampledPrefix(r, lerp, history + a, b);
    ResampledPrefix(r, lerp, history, a + b);
    var whole := Resampled(r, lerp, history + a + b);
    var mid := Count(r, |history + a|);
    assert whole == whole[..mid] + whole[mid..];
  }

  /** A chunk of `m` frames never produces more than the preallocated scratch holds. */
  lemma ScratchSuffices(r: Rates, n: nat, m: nat, maximum: nat)
    requires m <= maximum
    ensures Count(r, n + m) - Count(r, n) <= CeilDiv(maximum * r.target, r.source) + 2
  {
    var c := CeilDiv(maximum * r.target, r.source);
    CeilAtMost(maximum * r.target, r.source, c);
    MulMonotone(m, maximum, r.target);
    if m > 0 { AddsAtMost(r, n, m, c); }
  }

  lemma AddsAtMost(r: Rates, n: nat, m: nat, c: nat)
    requires m > 0 && m * r.target <= c * r.source
    ensures Count(r, n + m) - Count(r, n) <= c + 2
  {
    if n == 0 {
      Distribute(m - 1, 1, r.target);
      FloorBounded((m - 1) * r.target, 0, c, r.source);
    } else {
      Distribute(n - 1, m, r.target);
      FloorBounded((n - 1 + m) * r.target, (n - 1) * r.target, c, r.source);
    }
  }

  lemma FloorBounded(x: nat, y: nat, c: nat, b: Positive)
    requires x <= y + c * b
    ensures x / b <= y / b + c + 1
  {
    var p, q := y / b, x / b;
    FloorAtLeast(q, x, b);
    FloorAtLeast(p + 1, y, b);
    Distribute(p + 1, c, b);
    if q > p + 1 + c { MulMonotone(p + 1 + c, q, b); }
  }

  class StreamingLinearResampler<T> {
    const rates: Rates
    const lerp: Lerp<T>
    var totalInputFrames: nat
    var nextOutputNumerator: nat
    var previous: Option<T>
    /** Every frame accepted since the last reset. */
    ghost var history: seq<T>

    ghost predicate Valid()
      reads this
    {
      && totalInputFrames == |history|
      && nextOutputNumerator == Count(rates, |history|) * rates.source
      && previous == if history == [] then None else Some(history[|history| - 1])
    }

    constructor (rates: Rates, lerp: Lerp<T>)
      ensures Valid() && history == []
      ensures this.rates == rates && this.lerp == lerp
    {
      this.rates, this.lerp := rates, lerp;
      totalInputFrames, nextOutputNumerator, previous := 0, 0, None;
      history := [];
    }

    method Reset()
      modifies this
      ensures Valid() && history == []
    {
      totalInputFrames, nextOutputNumerator, previous := 0, 0, None;
      history := [];
    }

    /** Writes every sample that `current` makes due, all within one segment. */
    method EmitDue(current: T, output: array<T>, len: nat, ghost base: nat) returns (ok: bool, outputLen: nat)
      requires Valid() && previous.Some?
      requires base <= Count(rates, |history|) && len == Count(rates, |history|) - base <= output.Length
      requires output[..len] == Resampled(rates, lerp, history)[base..]
      modifies this`nextOutputNumerator, output
      ensures ok <==> Count(rates, |history| + 1) - base <= output.Length
      ensures ok ==>
        && nextOutputNumerator == Count(rates, |history| + 1) * rates.source
        && outputLen == Count(rates, |history| + 1) - base
        && output[..outputLen] == Resampled(rates, lerp, history + [current])[base..]
    {
      ghost var next, n := history + [current], |history|;
      ResampledPrefix(rates, lerp, history, [current]);
      outputLen := len;
      var segmentStart := (totalInputFrames - 1) * rates.target;
      var segmentEnd := totalInputFrames * rates.target;
      ghost var k := Count(rates, n);
      while nextOutputNumerator <= segmentEnd
        invariant nextOutputNumerator == k * rates.source
        invariant Count(rates, n) <= k <= Count(rates, n + 1)
        invariant outputLen == k - base <= output.Length
        invariant output[..outputLen] == Resampled(rates, lerp, next)[base..k]
        decreases Count(rates, n + 1) - k
      {
        DueAt(rates, n, k);
        if outputLen == output.Length {
          return false, outputLen;
        }
        var fractionNumerator := nextOutputNumerator - segmentStart;
        output[outputLen] := lerp(previous.value, current, fractionNumerator, rates.target);
        assert output[outputLen] == SampleAt(rates, lerp, next, k);
        outputLen := outputLen + 1;
        nextOutputNumerator := nextOutputNumerator + rates.source;
        Distribute(k, 1, rates.source);
        k := k + 1;
      }
      DueAt(rates, n, k);
      ok := true;
    }

    /** Fails exactly when `output` is too short for what the input makes due. */
    method ProcessInto(input: array<T>, n: nat, output: array<T>) returns (r: Result<nat, ()>)
      requires Valid() && n <= input.Length && input != output
      modifies this, output
      ensures r.Ok? <==> |Added(rates, lerp, old(history), input[..n])| <= output.Length
      ensures r.Ok? ==>
        && Valid()
        && history == old(history) + old(input[..n])
        && r.value <= output.Length
        && output[..r.value] == Added(rates, lerp, old(history), old(input[..n]))
    {
      var outputLen := 0;
      ghost var before, base := history, Count(rates, |history|);
      ghost var total := Count(rates, |before| + n);
      assert base <= total by { CountMonotone(rates, |before|, |before| + n); }
      var i := 0;
      while i < n
        invariant 0 <= i <= n
        invariant Valid() && history == before + input[..i]
        invariant input[..n] == old(input[..n])
        invariant base <= Count(rates, |history|)
        invariant outputLen == Count(rates, |history|) - base <= output.Length
        invariant output[..outputLen] == Resampled(rates, lerp, history)[base..]
      {
        var current := input[i];
        ghost var next := history + [current];
        assert next == before + input[..i + 1];
        ResampledPrefix(rates, lerp, history, [current]);
        CountMonotone(rates, |next|, |before| + n);
        if previous.Some? {
          var ok;
          ok, outputLen := EmitDue(current, output, outputLen, base);
          if !ok {
            return Err(());
          }
        } else if nextOutputNumerator == 0 {
          if output.Length == 0 {
            return Err(());
          }
          output[0] := current;
          outputLen := 1;
          nextOutputNumerator := rates.source;
        }
        previous := Some(current);
        totalInputFrames := totalInputFrames + 1;
        history := next;
        i := i + 1;
      }
      r := Ok(outputLen);
    }
  }

  /** Exact linear interpolation, for the claims about numeric value. */
  function ExactLerp(a: real, b: real, numerator: nat, denominator: nat): real {
    if denominator == 0 then a
    else a + (b - a) * (numerator as real / denominator as real)
  }

  lemma Shrinks(x: real, f: real) returns (p: real)
    requires 0.0 <= f <= 1.0
    ensures p == x * f
    ensures if x >= 0.0 then 0.0 <= p <= x else x <= p <= 0.0
  {
    p := x * f;
    var rest := x * (1.0 - f);
    assert p + rest == x;
    if x >= 0.0 { assert p >= 0.0 && rest >= 0.0; } else { assert p <= 0.0 && rest <= 0.0; }
  }

  lemma Between(a: real, b: real, f: real, low: real, high: real)
    requires low <= a <= high && low <= b <= high && 0.0 <= f <= 1.0
    ensures low <= a + (b - a) * f <= high
  {
    var p := Shrinks(b - a, f);
    assert low <= a + p <= high;
  }

  /** With exact arithmetic no sample overshoots the frames it lies between. */
  lemma NoOvershoot(r: Rates, frames: seq<real>, low: real, high: real, k: nat)
    requires forall i :: 0 <= i < |frames| ==> low <= frames[i] <= high
    requires k < Count(r, |frames|)
    ensures low <= Resampled(r, ExactLerp, frames)[k] <= high
  {
    if k > 0 {
      SamplePosition(r, |frames|, k);
      var i := CeilDiv(k * r.source, r.target);
      ProperFraction(k * r.source - (i - 1) * r.target, r.target);
      Between(frames[i - 1], frames[i], (k * r.source - (i - 1) * r.target) as real / r.target as real, low, high);
    }
  }

  lemma ProperFraction(numerator: nat, denominator: Positive)
    requires numerator <= denominator
    ensures 0.0 <= numerator as real / denominator as real <= 1.0
  {
  }

  // ---- what the interpolation means ----

  /** An interpolation that ends on its second frame. */
  ghost predicate EndsOnSecond<T(!new)>(lerp: Lerp<T>) {
    forall a: T, b: T, n: nat :: n > 0 ==> lerp(a, b, n, n) == b
  }

  /** A sample whose source position is a frame is that frame. */
  lemma OnAFrame<T(!new)>(r: Rates, lerp: Lerp<T>, frames: seq<T>, k: nat, i: nat)
    requires EndsOnSecond(lerp) && k < Count(r, |frames|) && k * r.source == i * r.target
    ensures i < |frames| && Resampled(r, lerp, frames)[k] == frames[i]
  {
    if k == 0 {
      if i > 0 { MulMonotone(1, i, r.target); }
    } else {
      SamplePosition(r, |frames|, k);
      CeilOnFrame(r, k, i);
      Distribute(i - 1, 1, r.target);
    }
  }

  lemma CeilOnFrame(r: Rates, k: nat, i: nat)
    requires k > 0 && k * r.source == i * r.target
    ensures i > 0 && CeilDiv(k * r.source, r.target) == i
  {
    MulMonotone(1, k, r.source);
    CeilAtMost(k * r.source, r.target, i);
    CeilAtMost(k * r.source, r.target, i - 1);
    Distribute(i - 1, 1, r.target);
  }

  /** So is a sample of what a chunk adds. */
  lemma AddedOnAFrame<T(!new)>(r: Rates, lerp: Lerp<T>, history: seq<T>, chunk: seq<T>, m: nat, i: nat)
    requires EndsOnSecond(lerp) && m < |Added(r, lerp, history, chunk)|
    requires (Count(r, |history|) + m) * r.source == i * r.target
    ensures i < |history + chunk| && Added(r, lerp, history, chunk)[m] == (history + chunk)[i]
  {
    ResampledPrefix(r, lerp, history, chunk);
    OnAFrame(r, lerp, history + chunk, Count(r, |history|) + m, i);
  }

  /** With exact arithmetic a straight line comes out as the same line, at every position. */
  lemma LinesStayLines(r: Rates, frames: seq<real>, a: real, b: real, k: nat)
    requires forall j :: 0 <= j < |frames| ==> frames[j] == a + b * j as real
    requires k < Count(r, |frames|)
    ensures Resampled(r, ExactLerp, frames)[k] == a + b * ((k * r.source) as real / r.target as real)
  {
    if k > 0 {
      SamplePosition(r, |frames|, k);
      var i := CeilDiv(k * r.source, r.target);
      OnTheLine(a, b, i - 1, k * r.source, r.target);
      assert frames[i - 1] == a + b * (i - 1) as real && frames[i] == a + b * (i - 1 + 1) as real;
    } else {
      assert 0.0 / r.target as real == 0.0;
    }
  }

  lemma OnTheLine(a: real, b: real, i: nat, position: nat, target: Positive)
    requires i * target <= position
    ensures ExactLerp(a + b * i as real, a + b * (i + 1) as real, position - i * target, target)
         == a + b * (position as real / target as real)
  {
    var t := target as real;
    var x := (position - i * target) as real;
    assert (i * target) as real == i as real * t;
    assert x == position as real - i as real * t;
    Quotient(position as real, i as real, t);
    assert x / t == position as real / t - i as real;
    assert a + b * (i + 1) as real - (a + b * i as real) == b;
    assert b * (position as real / t - i as real) == b * (position as real / t) - b * i as real;
  }

  lemma Quotient(p: real, i: real, t: real)
    requires t > 0.0
    ensures (p - i * t) / t == p / t - i
  {
    var q := p / t;
    assert q * t == p;
    assert (q - i) * t == p - i * t;
  }
}
