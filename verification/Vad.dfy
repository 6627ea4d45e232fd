/** The endpointing counters of vad.rs, against a function of the frame history. */
module Vad {
  import opened Prelude

  const U16_MAX: nat := 0xFFFF
  type u16 = n: nat | n <= U16_MAX

  function Sat16(n: nat): u16 {
    if n <= U16_MAX then n else U16_MAX
  }

  /** A float as far as range checks can tell: NaN and the infinities satisfy none. */
  datatype Float = NotFinite | Finite(value: real)

  predicate InRange(f: Float, low: real, high: real) {
    f.Finite? && low <= f.value <= high
  }

  datatype Qualification = Qualified | Unqualified | Unavailable

  datatype Profile = Profile(
    speech: Float, soft: Float,
    minimumSpeech: u16, minimumSoft: u16, minimumSilence: u16, hangover: u16)

  datatype VadError =
    | InvalidProfile | InvalidFrameLength(expected: nat, actual: nat) | InferenceFailed | InvalidProbability

  datatype Event =
    | UnavailableEvent | UnqualifiedEvent | Silence | SpeechCandidate | SpeechStarted
    | Speech | Hangover | SpeechEnded | FalseStart

  /** What the model runtime answered for one frame. */
  datatype Inference = Failed | Answered(probability: Float)

  const FRAME_SAMPLES: nat := 512

  function Validate(p: Profile): Result<Profile, VadError> {
    if !InRange(p.speech, 0.0, 1.0)
      || !(p.speech.Finite? && InRange(p.soft, 0.0, p.speech.value))
      || p.minimumSpeech == 0
      || p.minimumSoft < p.minimumSpeech
      || p.minimumSilence == 0
    then Err(InvalidProfile)
    else Ok(p)
  }

  datatype Kind = Strong | Soft | Silent

  function KindOf(p: Profile, probability: real): Kind
    requires Validate(p).Ok?
  {
    if probability >= p.speech.value then Strong
    else if probability >= p.soft.value then Soft
    else Silent
  }

  /** Consecutive silent frames until silence ends speech. */
  function Endpoint(p: Profile): u16 {
    Sat16(p.minimumSilence + p.hangover)
  }

  function SpeechRun(h: seq<Kind>): nat {
    if h == [] || h[|h| - 1].Silent? then 0 else 1 + SpeechRun(h[..|h| - 1])
  }

  function SilenceRun(h: seq<Kind>): nat {
    if h == [] || !h[|h| - 1].Silent? then 0 else 1 + SilenceRun(h[..|h| - 1])
  }

  /** The trailing run of speech holds a strong frame. */
  predicate StrongRun(h: seq<Kind>) {
    h != [] && !h[|h| - 1].Silent? && (h[|h| - 1].Strong? || StrongRun(h[..|h| - 1]))
  }

  /** The trailing run of speech is long enough to start on. */
  predicate Qualifies(p: Profile, h: seq<Kind>) {
    SpeechRun(h) >= (if StrongRun(h) then p.minimumSpeech else p.minimumSoft)
  }

  predicate EndsHere(p: Profile, h: seq<Kind>) {
    SilenceRun(h) >= Endpoint(p)
  }

  /** The history up to and including frame `i`. */
  function Through(h: seq<Kind>, i: nat): seq<Kind>
    requires i < |h|
  {
    h[..i + 1]
  }

  /** Speech is on: some frame qualified, and no frame since completed an endpoint silence. */
  ghost predicate Active(p: Profile, h: seq<Kind>) {
    exists i :: 0 <= i < |h| && Qualifies(p, Through(h, i)) && NoEndAfter(p, h, i)
  }

  ghost predicate NoEndAfter(p: Profile, h: seq<Kind>, i: nat) {
    forall j :: i < j < |h| ==> !EndsHere(p, Through(h, j))
  }

  /** The event of the last frame of `h`. */
  ghost function EventOf(p: Profile, h: seq<Kind>): Event
    requires h != []
  {
    var before := h[..|h| - 1];
    if h[|h| - 1].Silent? then
      if Active(p, before) then (if EndsHere(p, h) then SpeechEnded else Hangover)
      else if SpeechRun(before) > 0 then FalseStart
      else Silence
    else if Active(p, before) then Speech
    else if Qualifies(p, h) then SpeechStarted
    else SpeechCandidate
  }

  /** A frame with speech in it is never the end of a silence. */
  lemma QualifyingIsSpeech(p: Profile, h: seq<Kind>)
    requires Validate(p).Ok? && Qualifies(p, h)
    ensures h != [] && !h[|h| - 1].Silent? && !EndsHere(p, h)
  {
  }

  lemma NoEndExtends(p: Profile, h: seq<Kind>, k: Kind, i: nat)
    requires i < |h|
    ensures NoEndAfter(p, h + [k], i) <==> NoEndAfter(p, h, i) && !EndsHere(p, h + [k])
  {
    var g := h + [k];
    assert Through(g, |h|) == g;
    assert forall j :: i < j < |h| ==> Through(g, j) == Through(h, j);
  }

  /** How one frame moves the declarative state. */
  lemma ActiveStep(p: Profile, h: seq<Kind>, k: Kind)
    requires Validate(p).Ok?
    ensures Active(p, h + [k]) <==> if Active(p, h) then !EndsHere(p, h + [k]) else Qualifies(p, h + [k])
  {
    var g := h + [k];
    assert Through(g, |h|) == g;
    if Active(p, g) {
      var i :| 0 <= i < |g| && Qualifies(p, Through(g, i)) && NoEndAfter(p, g, i);
      if i < |h| {
        assert Through(g, i) == Through(h, i);
        NoEndExtends(p, h, k, i);
      } else {
        QualifyingIsSpeech(p, g);
      }
    }
    if Active(p, h) && !EndsHere(p, g) {
      var i :| 0 <= i < |h| && Qualifies(p, Through(h, i)) && NoEndAfter(p, h, i);
      assert Through(g, i) == Through(h, i);
      NoEndExtends(p, h, k, i);
    }
    if Qualifies(p, g) {
      assert Qualifies(p, Through(g, |h|)) && NoEndAfter(p, g, |h|);
    }
  }

  /** While speech is on, the current silence is still short of the endpoint. */
  lemma ActiveSilence(p: Profile, h: seq<Kind>)
    requires Validate(p).Ok? && Active(p, h)
    ensures SilenceRun(h) < Endpoint(p)
  {
    var i :| 0 <= i < |h| && Qualifies(p, Through(h, i)) && NoEndAfter(p, h, i);
    assert Through(h, |h| - 1) == h;
    if i == |h| - 1 {
      QualifyingIsSpeech(p, h);
    }
  }

  lemma QualifyingIsActive(p: Profile, h: seq<Kind>)
    requires Validate(p).Ok? && Qualifies(p, h)
    ensures Active(p, h)
  {
    QualifyingIsSpeech(p, h);
    assert Through(h, |h| - 1) == h;
    assert NoEndAfter(p, h, |h| - 1);
  }

  /** While speech is off, the current run of speech does not qualify. */
  lemma InactiveRun(p: Profile, h: seq<Kind>)
    requires Validate(p).Ok? && !Active(p, h)
    ensures !Qualifies(p, h) && SpeechRun(h) < p.minimumSoft
  {
    if Qualifies(p, h) {
      QualifyingIsActive(p, h);
    }
  }

  class SileroVadAdapter {
    const qualification: Qualification
    const profile: Profile
    var speechActive: bool
    var candidateFrames: u16
    var candidateHasStrongSpeech: bool
    var silenceFrames: u16
    /** Every frame classified since the last reset. */
    ghost var history: seq<Kind>

    ghost predicate Valid()
      reads this
    {
      && Validate(profile).Ok?
      && speechActive == Active(profile, history)
      && candidateFrames == (if speechActive then 0 else SpeechRun(history))
      && candidateHasStrongSpeech == (!speechActive && StrongRun(history))
      && silenceFrames == (if speechActive then SilenceRun(history) else 0)
    }

    constructor (qualification: Qualification, profile: Profile)
      requires Validate(profile).Ok?
      ensures Valid() && history == [] && this.profile == profile && this.qualification == qualification
    {
      this.qualification, this.profile := qualification, profile;
      speechActive, candidateFrames, candidateHasStrongSpeech, silenceFrames := false, 0, false, 0;
      history := [];
    }

    /** Clears the counters, unless the runtime itself could not be reset. */
    method Reset(runtimeReset: bool) returns (r: Result<(), VadError>)
      requires Valid()
      modifies this
      ensures Valid()
      ensures r == if runtimeReset then Ok(()) else Err(InferenceFailed)
      ensures history == if runtimeReset then [] else old(history)
    {
      if !runtimeReset {
        return Err(InferenceFailed);
      }
      speechActive, candidateFrames, candidateHasStrongSpeech, silenceFrames := false, 0, false, 0;
      history := [];
      r := Ok(());
    }

    /** `inference` is what the runtime would answer; it is consulted only when qualified. */
    method AcceptFrame(samples: nat, inference: Inference) returns (r: Result<Event, VadError>)
      requires Valid()
      modifies this
      ensures Valid()
      ensures
        if samples != 512 then
          r == Err(InvalidFrameLength(512, samples)) && history == old(history)
        else if qualification != Qualified then
          && r == Ok(if qualification == Unavailable then UnavailableEvent else UnqualifiedEvent)
          && history == old(history)
        else if inference.Failed? then
          r == Err(InferenceFailed) && history == old(history)
        else if !InRange(inference.probability, 0.0, 1.0) then
          r == Err(InvalidProbability) && history == old(history)
        else
          && history == old(history) + [KindOf(profile, inference.probability.value)]
          && r == Ok(EventOf(profile, history))
    {
      if samples != FRAME_SAMPLES {
        return Err(InvalidFrameLength(FRAME_SAMPLES, samples));
      }
      match qualification {
        case Unavailable => return Ok(UnavailableEvent);
        case Unqualified => return Ok(UnqualifiedEvent);
        case Qualified =>
      }
      if inference.Failed? {
        return Err(InferenceFailed);
      }
      if !inference.probability.Finite? || !InRange(inference.probability, 0.0, 1.0) {
        return Err(InvalidProbability);
      }
      var probability := inference.probability.value;
      var event;
      if probability >= profile.soft.value {
        event := AcceptSpeechProbability(probability);
      } else {
        event := AcceptSilence();
      }
      r := Ok(event);
    }

    method AcceptSpeechProbability(probability: real) returns (event: Event)
      requires Valid() && probability >= profile.soft.value
      modifies this
      ensures Valid() && history == old(history) + [KindOf(profile, probability)]
      ensures event == EventOf(profile, history)
    {
      ghost var before := history;
      history := before + [KindOf(profile, probability)];
      ActiveStep(profile, before, KindOf(profile, probability));
      assert history[..|before|] == before;
      silenceFrames := 0;
      if speechActive {
        return Speech;
      }
      InactiveRun(profile, before);
      candidateFrames := Sat16(candidateFrames + 1);
      candidateHasStrongSpeech := candidateHasStrongSpeech || probability >= profile.speech.value;
      var required := if candidateHasStrongSpeech then profile.minimumSpeech else profile.minimumSoft;
      if candidateFrames >= required {
        speechActive := true;
        candidateFrames := 0;
        candidateHasStrongSpeech := false;
        event := SpeechStarted;
      } else {
        event := SpeechCandidate;
      }
    }

    method AcceptSilence() returns (event: Event)
      requires Valid()
      modifies this
      ensures Valid() && history == old(history) + [Silent]
      ensures event == EventOf(profile, history)
    {
      ghost var before := history;
      history := before + [Silent];
      ActiveStep(profile, before, Silent);
      assert history[..|before|] == before;
      if !speechActive {
        if candidateFrames > 0 {
          candidateFrames := 0;
          candidateHasStrongSpeech := false;
          return FalseStart;
        }
        return Silence;
      }
      ActiveSilence(profile, before);
      silenceFrames := Sat16(silenceFrames + 1);
      var endpoint := Sat16(profile.minimumSilence + profile.hangover);
      if silenceFrames >= endpoint {
        speechActive := false;
        silenceFrames := 0;
        event := SpeechEnded;
      } else {
        event := Hangover;
      }
    }
  }

  /** `new`: an adapter, or the refusal of its profile. */
  method NewAdapter(qualification: Qualification, profile: Profile) returns (r: Result<SileroVadAdapter, VadError>)
    ensures r.Ok? <==>
      && InRange(profile.speech, 0.0, 1.0) && InRange(profile.soft, 0.0, 1.0)
      && profile.soft.value <= profile.speech.value
      && 1 <= profile.minimumSpeech <= profile.minimumSoft && 1 <= profile.minimumSilence
    ensures r.Err? ==> r.error == InvalidProfile
    ensures r.Ok? ==>
      && fresh(r.value) && r.value.Valid() && r.value.history == []
      && r.value.profile == profile && r.value.qualification == qualification
  {
    var valid := Validate(profile);
    if valid.Err? {
      return Err(valid.error);
    }
    var adapter := new SileroVadAdapter(qualification, valid.value);
    r := Ok(adapter);
  }

  // ---- whole histories ----

  /** Starts (true) and ends (false) over a history, in order. */
  ghost function Marks(p: Profile, h: seq<Kind>): seq<bool> {
    if h == [] then []
    else
      Marks(p, h[..|h| - 1]) +
      (match EventOf(p, h)
       case SpeechStarted => [true]
       case SpeechEnded => [false]
       case _ => [])
  }

  /** Starts and ends alternate, beginning with a start; the last is a start exactly when speech is on. */
  lemma {:induction false} StartsAndEndsAlternate(p: Profile, h: seq<Kind>)
    requires Validate(p).Ok?
    ensures forall i :: 0 <= i < |Marks(p, h)| ==> (Marks(p, h)[i] <==> i % 2 == 0)
    ensures Active(p, h) <==> |Marks(p, h)| % 2 == 1
  {
    if h != [] {
      var before := h[..|h| - 1];
      StartsAndEndsAlternate(p, before);
      assert before + [h[|h| - 1]] == h;
      ActiveStep(p, before, h[|h| - 1]);
      if Active(p, before) && !h[|h| - 1].Silent? {
        assert !EndsHere(p, h);
      }
      if !Active(p, before) && h[|h| - 1].Silent? && Qualifies(p, h) {
        QualifyingIsSpeech(p, h);
      }
    }
  }

  // ---- in thresholds and numbers ----

  /** Exactly the last `n` frames of `h` are silent. */
  predicate SilentFor(h: seq<Kind>, n: nat) {
    && n <= |h|
    && (forall i :: |h| - n <= i < |h| ==> h[i].Silent?)
    && (n < |h| ==> !h[|h| - n - 1].Silent?)
  }

  /** Exactly the last `n` frames of `h` hold speech. */
  predicate SpeechFor(h: seq<Kind>, n: nat) {
    && n <= |h|
    && (forall i :: |h| - n <= i < |h| ==> !h[i].Silent?)
    && (n < |h| ==> h[|h| - n - 1].Silent?)
  }

  /** How many frames of speech a start takes, given the last `n`. */
  function StartTakes(p: Profile, h: seq<Kind>, n: nat): nat
    requires n <= |h|
  {
    if exists i :: |h| - n <= i < |h| && h[i].Strong? then p.minimumSpeech else p.minimumSoft
  }

  /** How many silent frames an end takes. */
  function EndTakes(p: Profile): nat {
    if p.minimumSilence + p.hangover <= 65_535 then p.minimumSilence + p.hangover else 65_535
  }

  lemma {:induction false} SilenceRunIs(h: seq<Kind>, n: nat)
    ensures SilentFor(h, n) <==> SilenceRun(h) == n
    ensures SilenceRun(h) <= |h|
  {
    if h != [] {
      var init, last := h[..|h| - 1], h[|h| - 1];
      if last.Silent? {
        SilenceRunIs(init, if n > 0 then n - 1 else 0);
        if n > 0 { SilentOneLess(h, n); }
      } else {
        assert n > 0 && n <= |h| ==> !h[|h| - 1].Silent?;
      }
    }
  }

  lemma SilentOneLess(h: seq<Kind>, n: nat)
    requires h != [] && h[|h| - 1].Silent? && n > 0
    ensures SilentFor(h, n) <==> SilentFor(h[..|h| - 1], n - 1)
  {
    var init := h[..|h| - 1];
    if n <= |h| {
      assert forall i :: 0 <= i < |init| ==> init[i] == h[i];
      assert |init| - (n - 1) == |h| - n;
    }
  }

  lemma {:induction false} SpeechRunIs(h: seq<Kind>, n: nat)
    ensures SpeechFor(h, n) <==> SpeechRun(h) == n
    ensures SpeechRun(h) <= |h|
    ensures StrongRun(h) <==> exists i :: |h| - SpeechRun(h) <= i < |h| && h[i].Strong?
  {
    if h != [] {
      var init, last := h[..|h| - 1], h[|h| - 1];
      if !last.Silent? {
        SpeechRunIs(init, if n > 0 then n - 1 else 0);
        assert forall i :: 0 <= i < |init| ==> init[i] == h[i];
        if n > 0 { SpeechOneLess(h, n); }
        if last.Strong? { assert h[|h| - 1].Strong?; }
      } else {
        assert n > 0 && n <= |h| ==> h[|h| - 1].Silent?;
      }
    }
  }

  lemma SpeechOneLess(h: seq<Kind>, n: nat)
    requires h != [] && !h[|h| - 1].Silent? && n > 0
    ensures SpeechFor(h, n) <==> SpeechFor(h[..|h| - 1], n - 1)
  {
    var init := h[..|h| - 1];
    if n <= |h| {
      assert forall i :: 0 <= i < |init| ==> init[i] == h[i];
      assert |init| - (n - 1) == |h| - n;
    }
  }

  /** A frame is strong from the speech threshold up, soft from the soft one up to it, and
      silent below. */
  lemma KindExactly(p: Profile, probability: real)
    requires Validate(p).Ok?
    ensures KindOf(p, probability) == Strong <==> probability >= p.speech.value
    ensures KindOf(p, probability) == Soft <==> p.soft.value <= probability < p.speech.value
    ensures KindOf(p, probability) == Silent <==> probability < p.soft.value
  {
  }

  /** Speech ends exactly if it was on and exactly the last min(65535, silence + hangover)
      frames are silent. */
  lemma EndsExactly(p: Profile, h: seq<Kind>)
    requires Validate(p).Ok? && h != []
    ensures EventOf(p, h) == SpeechEnded <==> Active(p, h[..|h| - 1]) && SilentFor(h, EndTakes(p))
  {
    SilenceRunIs(h, EndTakes(p));
    if Active(p, h[..|h| - 1]) {
      ActiveSilence(p, h[..|h| - 1]);
    }
  }

  /** Every event of a frame that holds speech, by the length of the run it ends. */
  lemma SpeechEventsExactly(p: Profile, h: seq<Kind>, n: nat)
    requires Validate(p).Ok? && h != [] && n > 0 && SpeechFor(h, n)
    ensures var before := Active(p, h[..|h| - 1]);
      EventOf(p, h) == if before then Speech else if n >= StartTakes(p, h, n) then SpeechStarted else SpeechCandidate
  {
    SpeechRunIs(h, n);
  }

  /** Every event of a silent frame, by the length of the silence it ends. */
  lemma SilentEventsExactly(p: Profile, h: seq<Kind>, n: nat)
    requires Validate(p).Ok? && h != [] && n > 0 && SilentFor(h, n)
    ensures var before := Active(p, h[..|h| - 1]);
      EventOf(p, h) ==
        if before then if n < EndTakes(p) then Hangover else SpeechEnded
        else if |h| >= 2 && !h[|h| - 2].Silent? then FalseStart
        else Silence
  {
    SilenceRunIs(h, n);
    var before := h[..|h| - 1];
    if before != [] { assert before[|before| - 1] == h[|h| - 2]; }
  }

  /** Speech is on exactly if some frame completed a run long enough for a start and since
      then no frame completed a silence long enough for an end. */
  lemma ActiveExactly(p: Profile, h: seq<Kind>)
    requires Validate(p).Ok?
    ensures Active(p, h) <==> exists i :: 0 <= i < |h| && StartsAt(p, h, i) && NoEndSince(p, h, i)
  {
    forall i | 0 <= i < |h|
      ensures Qualifies(p, Through(h, i)) <==> StartsAt(p, h, i)
      ensures NoEndAfter(p, h, i) <==> NoEndSince(p, h, i)
    {
      LongEnough(p, Through(h, i));
      forall j | i < j < |h|
        ensures EndsHere(p, Through(h, j)) <==> EndedAt(p, h, j)
      {
        SilentEnough(p, Through(h, j));
      }
      if NoEndSince(p, h, i) {
        forall j | i < j < |h| ensures !EndsHere(p, Through(h, j)) { assert !EndedAt(p, h, j); }
      }
    }
  }

  predicate LongRun(p: Profile, h: seq<Kind>) {
    exists n :: 0 < n <= |h| && SpeechFor(h, n) && n >= StartTakes(p, h, n)
  }

  predicate LongSilence(p: Profile, h: seq<Kind>) {
    exists n :: 0 < n <= |h| && SilentFor(h, n) && n >= EndTakes(p)
  }

  predicate StartsAt(p: Profile, h: seq<Kind>, i: nat)
    requires i < |h|
  {
    LongRun(p, Through(h, i))
  }

  predicate EndedAt(p: Profile, h: seq<Kind>, j: nat)
    requires j < |h|
  {
    LongSilence(p, Through(h, j))
  }

  ghost predicate NoEndSince(p: Profile, h: seq<Kind>, i: nat) {
    forall j :: i < j < |h| ==> !EndedAt(p, h, j)
  }

  lemma LongEnough(p: Profile, h: seq<Kind>)
    requires Validate(p).Ok?
    ensures Qualifies(p, h) <==> LongRun(p, h)
  {
    var run := SpeechRun(h);
    SpeechRunIs(h, run);
    if n: nat :| 0 < n <= |h| && SpeechFor(h, n) && n >= StartTakes(p, h, n) {
      SpeechRunIs(h, n);
    }
    if Qualifies(p, h) { assert SpeechFor(h, run) && run >= StartTakes(p, h, run); }
  }

  lemma SilentEnough(p: Profile, h: seq<Kind>)
    requires Validate(p).Ok?
    ensures EndsHere(p, h) <==> LongSilence(p, h)
  {
    var run := SilenceRun(h);
    SilenceRunIs(h, run);
    if n: nat :| 0 < n <= |h| && SilentFor(h, n) && n >= EndTakes(p) {
      SilenceRunIs(h, n);
    }
    if EndsHere(p, h) { assert SilentFor(h, run) && run >= EndTakes(p); }
  }

  /** Speech starts on the first frame of its run that qualifies. */
  lemma StartsAtTheFirst(p: Profile, h: seq<Kind>, j: nat)
    requires Validate(p).Ok? && h != [] && EventOf(p, h) == SpeechStarted
    requires |h| - SpeechRun(h) <= j < |h| - 1
    ensures Qualifies(p, h) && !Qualifies(p, Through(h, j))
  {
    if Qualifies(p, Through(h, j)) {
      QualifiedRunIsActive(p, h, j);
    }
  }

  lemma QualifiedRunIsActive(p: Profile, h: seq<Kind>, j: nat)
    requires Validate(p).Ok? && h != []
    requires |h| - SpeechRun(h) <= j < |h| - 1 && Qualifies(p, Through(h, j))
    ensures Active(p, h[..|h| - 1])
  {
    var before := h[..|h| - 1];
    assert Through(before, j) == Through(h, j);
    forall m | j < m < |before|
      ensures !EndsHere(p, Through(before, m))
    {
      RunIsSpeech(h, m);
      assert Through(before, m)[m] == h[m];
    }
    assert NoEndAfter(p, before, j);
  }

  lemma {:induction false} RunIsSpeech(h: seq<Kind>, m: nat)
    requires |h| - SpeechRun(h) <= m < |h|
    ensures !h[m].Silent?
  {
    if m < |h| - 1 {
      RunIsSpeech(h[..|h| - 1], m);
    }
  }
}
