/** Toggle, push-to-talk and hands-free activation (activation.rs). */
module Activation {
  import opened Prelude

  type Id = nat

  datatype Mode = Toggle | PushToTalk | HandsFree

  datatype Input =
    | TogglePressed(id: Id) | PushToTalkPressed(id: Id) | PushToTalkReleased(id: Id)
    | HandsFreePressed(id: Id) | VadEndpoint(id: Id) | ManualStop(id: Id) | Cancel(id: Id)

  datatype StopReason = ByToggle | ByRelease | ByEndpoint | ByHand | ByCancel

  datatype Effect =
    | Start(id: Id, mode: Mode) | Stop(id: Id, reason: StopReason)
    | Ignored | StaleSession | SessionAlreadyActive

  datatype Active = Active(id: Id, mode: Mode)

  datatype State = State(active: Option<Active>, held: bool)

  const INITIAL := State(None, false)

  function StartIn(s: State, id: Id, mode: Mode): (State, Effect) {
    if s.active.Some? then (s, SessionAlreadyActive)
    else (State(Some(Active(id, mode)), mode == PushToTalk), Start(id, mode))
  }

  function StopIn(s: State, id: Id, reason: StopReason): (State, Effect) {
    if s.active.None? then (s, Ignored)
    else if s.active.value.id != id then (s, StaleSession)
    else (INITIAL, Stop(id, reason))
  }

  function Apply(s: State, input: Input): (State, Effect) {
    match input
    case TogglePressed(id) =>
      if s.active == Some(Active(id, Toggle)) then StopIn(s, id, ByToggle) else StartIn(s, id, Toggle)
    case PushToTalkPressed(id) =>
      if s.active == Some(Active(id, PushToTalk)) && s.held then (s, Ignored) else StartIn(s, id, PushToTalk)
    case PushToTalkReleased(id) =>
      if s.active.None? then (s, Ignored)
      else if s.active.value.id != id then (s, StaleSession)
      else if s.active.value.mode != PushToTalk || !s.held then (s, Ignored)
      else StopIn(s, id, ByRelease)
    case HandsFreePressed(id) => StartIn(s, id, HandsFree)
    case VadEndpoint(id) =>
      if s.active.None? then (s, Ignored)
      else if s.active.value.id != id then (s, StaleSession)
      else if s.active.value.mode != HandsFree then (s, Ignored)
      else StopIn(s, id, ByEndpoint)
    case ManualStop(id) => StopIn(s, id, ByHand)
    case Cancel(id) => StopIn(s, id, ByCancel)
  }

  class ActivationReducer {
    var active: Option<Active>
    var pushToTalkHeld: bool

    function Current(): State
      reads this
    {
      State(active, pushToTalkHeld)
    }

    constructor ()
      ensures Current() == INITIAL
    {
      active, pushToTalkHeld := None, false;
    }

    method ApplyInput(input: Input) returns (effect: Effect)
      modifies this
      ensures (Current(), effect) == Apply(old(Current()), input)
    {
      match input
      case TogglePressed(id) =>
        if active.Some? && active.value.id == id && active.value.mode == Toggle {
          effect := StopSession(id, ByToggle);
        } else {
          effect := StartSession(id, Toggle);
        }
      case PushToTalkPressed(id) =>
        if active.Some? && active.value.id == id && active.value.mode == PushToTalk && pushToTalkHeld {
          effect := Ignored;
        } else {
          effect := StartSession(id, PushToTalk);
        }
      case PushToTalkReleased(id) =>
        if active.None? {
          return Ignored;
        }
        if active.value.id != id {
          return StaleSession;
        }
        if active.value.mode != PushToTalk || !pushToTalkHeld {
          return Ignored;
        }
        effect := StopSession(id, ByRelease);
      case HandsFreePressed(id) =>
        effect := StartSession(id, HandsFree);
      case VadEndpoint(id) =>
        if active.None? {
          return Ignored;
        }
        if active.value.id != id {
          return StaleSession;
        }
        if active.value.mode != HandsFree {
          return Ignored;
        }
        effect := StopSession(id, ByEndpoint);
      case ManualStop(id) =>
        effect := StopSession(id, ByHand);
      case Cancel(id) =>
        effect := StopSession(id, ByCancel);
    }

    method StartSession(id: Id, mode: Mode) returns (effect: Effect)
      modifies this
      ensures (Current(), effect) == StartIn(old(Current()), id, mode)
    {
      if active.Some? {
        return SessionAlreadyActive;
      }
      active := Some(Active(id, mode));
      pushToTalkHeld := mode == PushToTalk;
      effect := Start(id, mode);
    }

    method StopSession(id: Id, reason: StopReason) returns (effect: Effect)
      modifies this
      ensures (Current(), effect) == StopIn(old(Current()), id, reason)
    {
      if active.None? {
        return Ignored;
      }
      if active.value.id != id {
        return StaleSession;
      }
      active := None;
      pushToTalkHeld := false;
      effect := Stop(id, reason);
    }
  }

  // ---- whole runs ----

  function Run(inputs: seq<Input>): (State, seq<Effect>) {
    if inputs == [] then (INITIAL, [])
    else
      var (s, effects) := Run(inputs[..|inputs| - 1]);
      var (next, effect) := Apply(s, inputs[|inputs| - 1]);
      (next, effects + [effect])
  }

  /** The activation started and not stopped, going by the effects alone. */
  function OpenAfter(effects: seq<Effect>): Option<Active> {
    if effects == [] then None
    else
      match effects[|effects| - 1]
      case Start(id, mode) => Some(Active(id, mode))
      case Stop(_, _) => None
      case _ => OpenAfter(effects[..|effects| - 1])
  }

  /** Which modes a stop reason can end: automatic reasons belong to one mode each. */
  predicate ReasonFits(reason: StopReason, mode: Mode) {
    match reason
    case ByToggle => mode == Toggle
    case ByRelease => mode == PushToTalk
    case ByEndpoint => mode == HandsFree
    case ByHand => true
    case ByCancel => true
  }

  /** `effect`, coming after `effects`, keeps starts and stops alternating on one session. */
  predicate Alternates(effects: seq<Effect>, effect: Effect) {
    match effect
    case Start(_, _) => OpenAfter(effects).None?
    case Stop(id, reason) =>
      var open := OpenAfter(effects);
      open.Some? && open.value.id == id && ReasonFits(reason, open.value.mode)
    case _ => true
  }

  /** Over every run the reducer holds exactly the activation its effects left open, and
      push-to-talk is held exactly while that mode is active. */
  lemma {:induction false} RunTracksEffects(inputs: seq<Input>)
    ensures var (s, effects) := Run(inputs);
      && |effects| == |inputs|
      && s.active == OpenAfter(effects)
      && (s.held <==> s.active.Some? && s.active.value.mode == PushToTalk)
  {
    if inputs != [] {
      var init := inputs[..|inputs| - 1];
      RunTracksEffects(init);
      var (s, effects) := Run(init);
      var effect := Apply(s, inputs[|inputs| - 1]).1;
      assert (effects + [effect])[..|effects|] == effects;
    }
  }

  /** Over every run, starts and stops strictly alternate, a stop names the session that was
      started, and each automatic stop reason matches the mode it ends. */
  lemma {:induction false} RunAlternates(inputs: seq<Input>, i: nat)
    requires i < |Run(inputs).1|
    ensures Alternates(Run(inputs).1[..i], Run(inputs).1[i])
  {
    var init := inputs[..|inputs| - 1];
    var (s, effects) := Run(init);
    RunTracksEffects(init);
    var all := Run(inputs).1;
    if i < |effects| {
      RunAlternates(init, i);
      assert all[..i] == effects[..i];
    } else {
      assert all[..i] == effects;
    }
  }

  /** Only a start or a stop changes anything. */
  lemma OtherEffectsChangeNothing(s: State, input: Input)
    ensures var (next, effect) := Apply(s, input); !effect.Start? && !effect.Stop? ==> next == s
    ensures var (next, effect) := Apply(s, input); effect.Start? || effect.Stop? ==> next.active != s.active
  {
  }

  // ---- what each input does, by the effects so far ----

  /** The mode a press asks for. */
  function AskedFor(input: Input): Option<Mode> {
    match input
    case TogglePressed(_) => Some(Toggle)
    case PushToTalkPressed(_) => Some(PushToTalk)
    case HandsFreePressed(_) => Some(HandsFree)
    case _ => None
  }

  /** The reason for which an input ends an activation of its own session, if it does. */
  function EndedBy(input: Input, mode: Mode): Option<StopReason> {
    if input.TogglePressed? && mode == Toggle then Some(ByToggle)
    else if input.PushToTalkReleased? && mode == PushToTalk then Some(ByRelease)
    else if input.VadEndpoint? && mode == HandsFree then Some(ByEndpoint)
    else if input.ManualStop? then Some(ByHand)
    else if input.Cancel? then Some(ByCancel)
    else None
  }

  /** Over every run: a press starts its mode exactly if nothing is open; an input stops what is
      open exactly if it names the same session and is made to end that mode; an input that is
      no press and names another session is stale; and a press against something open is told
      so, but for the repeat of a held push-to-talk key. */
  lemma AnswersExactly(inputs: seq<Input>, input: Input)
    ensures var (s, effects) := Run(inputs);
      var open, effect := OpenAfter(effects), Apply(s, input).1;
      && (effect.Start? <==> open.None? && AskedFor(input).Some?)
      && (effect.Start? ==> effect == Start(input.id, AskedFor(input).value))
      && (effect.Stop? <==> open.Some? && open.value.id == input.id && EndedBy(input, open.value.mode).Some?)
      && (effect.Stop? ==> effect == Stop(input.id, EndedBy(input, open.value.mode).value))
      && (effect == StaleSession <==> open.Some? && open.value.id != input.id && AskedFor(input).None?)
      && (effect == SessionAlreadyActive <==>
            && open.Some? && AskedFor(input).Some? && !effect.Stop?
            && !(input == PushToTalkPressed(open.value.id) && open.value.mode == PushToTalk))
  {
    RunTracksEffects(inputs);
  }
}
