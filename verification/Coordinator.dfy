/** The session phase graph of state.rs. */
module Phases {

  datatype Phase = Idle | Arming | Capturing | Draining | Finalizing | Delivering | Delivered | Cancelled | Failed

  predicate TransitionAllowed(from: Phase, to: Phase) {
    match from
    case Idle => to == Arming
    case Arming => to in {Capturing, Cancelled, Failed}
    case Capturing => to in {Draining, Cancelled, Failed}
    case Draining => to in {Finalizing, Cancelled, Failed}
    case Finalizing => to in {Delivering, Cancelled, Failed}
    case Delivering => to in {Delivered, Failed}
    case Delivered => to == Idle
    case Cancelled => to == Idle
    case Failed => to == Idle
  }

  predicate Terminal(p: Phase) {
    p in {Delivered, Cancelled, Failed}
  }

  /** A session is under way. */
  predicate Live(p: Phase) {
    p in {Arming, Capturing, Draining, Finalizing, Delivering}
  }

  /** Idle, and the way from there to a delivery. */
  predicate OnPath(p: Phase) {
    p != Cancelled && p != Failed
  }

  /** How far along that way a phase is. */
  function Rank(p: Phase): nat {
    match p
    case Idle => 0
    case Arming => 1
    case Capturing => 2
    case Draining => 3
    case Finalizing => 4
    case Delivering => 5
    case Delivered => 6
    case Cancelled => 6
    case Failed => 6
  }

  /** The whole graph in four rules: one phase further, any live phase may fail, any but the
      last of them may be cancelled, and whatever has ended goes back to idle. */
  lemma GraphShape(from: Phase, to: Phase)
    ensures TransitionAllowed(from, to) <==>
      || (OnPath(from) && OnPath(to) && Rank(to) == Rank(from) + 1)
      || (Live(from) && to == Failed)
      || (Live(from) && from != Delivering && to == Cancelled)
      || (Terminal(from) && to == Idle)
  {
  }
}

/** The session reducer of coordinator.rs, one input at a time and over whole runs. */
module Coordinator {
  import opened Prelude
  import opened Phases

  /** Opaque identities. */
  type Id = nat

  const MAXIMUM_PRODUCERS: nat := 64

  datatype Ingress<T> = Ingress(
    correlation: Id, session: Option<Id>, producer: Id, sourceSequence: u64, producerNs: u64, payload: T)

  datatype DomainEvent<T> = DomainEvent(
    correlation: Id, session: Option<Id>, coordinatorSequence: u64, receivedNs: u64, payload: T)

  datatype Disposition = Applied | DuplicateOrOutOfOrder | StaleSession | InvalidTransition | ProducerCapacityExceeded

  datatype State = State(phase: Phase, active: Option<Id>, lastSource: map<Id, u64>, sequence: u64)

  const INITIAL := State(Idle, None, map[], 0)

  function BeginSession(s: State, id: Id): (State, Disposition) {
    if s.active.Some? || !TransitionAllowed(s.phase, Arming) then (s, InvalidTransition)
    else (s.(active := Some(id), phase := Arming), Applied)
  }

  function Refusal<T>(s: State, ingress: Ingress<T>, next: Phase): Option<Disposition> {
    if ingress.session.Some? && ingress.session != s.active then Some(StaleSession)
    else if ingress.producer in s.lastSource && ingress.sourceSequence <= s.lastSource[ingress.producer]
      then Some(DuplicateOrOutOfOrder)
    else if ingress.producer !in s.lastSource && |s.lastSource| == MAXIMUM_PRODUCERS
      then Some(ProducerCapacityExceeded)
    else if !TransitionAllowed(s.phase, next) then Some(InvalidTransition)
    else None
  }

  function Accept<T>(s: State, ingress: Ingress<T>, next: Phase): State {
    State(
      next,
      if Terminal(next) then None else s.active,
      s.lastSource[ingress.producer := ingress.sourceSequence],
      Sat(s.sequence + 1))
  }

  function Apply<T>(s: State, ingress: Ingress<T>, next: Phase, receivedNs: u64)
      : (State, Disposition, Option<DomainEvent<T>>) {
    var refusal := Refusal(s, ingress, next);
    if refusal.Some? then (s, refusal.value, None)
    else
      var accepted := Accept(s, ingress, next);
      (accepted, Applied, Some(DomainEvent(
        ingress.correlation, ingress.session, accepted.sequence, receivedNs, ingress.payload)))
  }

  class Reducer {
    var phase: Phase
    var activeSession: Option<Id>
    var lastSourceSequence: map<Id, u64>
    var coordinatorSequence: u64

    function Current(): State
      reads this
    {
      State(phase, activeSession, lastSourceSequence, coordinatorSequence)
    }

    constructor ()
      ensures Current() == INITIAL
    {
      phase, activeSession, lastSourceSequence, coordinatorSequence := Idle, None, map[], 0;
    }

    method Begin(id: Id) returns (d: Disposition)
      modifies this
      ensures (Current(), d) == BeginSession(old(Current()), id)
    {
      if activeSession.Some? || !TransitionAllowed(phase, Arming) {
        return InvalidTransition;
      }
      activeSession := Some(id);
      phase := Arming;
      d := Applied;
    }

    method ApplyEvent<T>(ingress: Ingress<T>, next: Phase, receivedNs: u64)
        returns (d: Disposition, event: Option<DomainEvent<T>>)
      modifies this
      ensures (Current(), d, event) == Apply(old(Current()), ingress, next, receivedNs)
    {
      if ingress.session.Some? && ingress.session != activeSession {
        return StaleSession, None;
      }
      if ingress.producer in lastSourceSequence
        && ingress.sourceSequence <= lastSourceSequence[ingress.producer] {
        return DuplicateOrOutOfOrder, None;
      }
      if ingress.producer !in lastSourceSequence && |lastSourceSequence| == MAXIMUM_PRODUCERS {
        return ProducerCapacityExceeded, None;
      }
      if !TransitionAllowed(phase, next) {
        return InvalidTransition, None;
      }
      lastSourceSequence := lastSourceSequence[ingress.producer := ingress.sourceSequence];
      coordinatorSequence := Sat(coordinatorSequence + 1);
      phase := next;
      if next == Delivered || next == Cancelled || next == Failed {
        activeSession := None;
      }
      d := Applied;
      event := Some(DomainEvent(
        ingress.correlation, ingress.session, coordinatorSequence, receivedNs, ingress.payload));
    }
  }

  // ---- whole runs ----

  datatype Input<T> = Begin(id: Id) | Deliver(ingress: Ingress<T>, next: Phase, receivedNs: u64)

  /** Something that was not refused. */
  datatype Happening<T> =
    | Began(id: Id)
    | Moved(producer: Id, sourceSequence: u64, to: Phase, event: DomainEvent<T>)

  function Step<T>(s: State, input: Input<T>): (State, seq<Happening<T>>) {
    match input
    case Begin(id) =>
      var (d, disposition) := BeginSession(s, id);
      (d, if disposition == Applied then [Began(id)] else [])
    case Deliver(ingress, next, ns) =>
      var (d, _, event) := Apply(s, ingress, next, ns);
      (d, if event.Some? then [Moved(ingress.producer, ingress.sourceSequence, next, event.value)] else [])
  }

  /** Where a fresh reducer is after `inputs`, and everything that happened on the way. */
  function Run<T>(inputs: seq<Input<T>>): (State, seq<Happening<T>>) {
    if inputs == [] then (INITIAL, [])
    else
      var (s, past) := Run(inputs[..|inputs| - 1]);
      var (next, more) := Step(s, inputs[|inputs| - 1]);
      (next, past + more)
  }

  /** The session that has begun and not been ended, going by what happened alone. */
  function OwnerOf<T>(past: seq<Happening<T>>): Option<Id> {
    if past == [] then None
    else
      match past[|past| - 1]
      case Began(id) => Some(id)
      case Moved(_, _, to, _) => if Terminal(to) then None else OwnerOf(past[..|past| - 1])
  }

  function PhaseOf<T>(past: seq<Happening<T>>): Phase {
    if past == [] then Idle
    else
      match past[|past| - 1]
      case Began(_) => Arming
      case Moved(_, _, to, _) => to
  }

  function EventsOf<T>(past: seq<Happening<T>>): seq<DomainEvent<T>> {
    if past == [] then []
    else
      EventsOf(past[..|past| - 1]) +
      (if past[|past| - 1].Moved? then [past[|past| - 1].event] else [])
  }

  /** Whether the last arming came from an event rather than from `begin_session`. */
  predicate ArmedByEvent<T>(past: seq<Happening<T>>) {
    past != [] &&
    match past[|past| - 1]
    case Began(_) => false
    case Moved(_, _, to, _) => to == Arming || ArmedByEvent(past[..|past| - 1])
  }

  /** Happening `h`, coming after `past`, is in order. */
  ghost predicate InOrder<T>(past: seq<Happening<T>>, h: Happening<T>) {
    match h
    case Began(id) => OwnerOf(past).None? && TransitionAllowed(PhaseOf(past), Arming)
    case Moved(producer, sequence, to, event) =>
      && TransitionAllowed(PhaseOf(past), to)
      && (event.session.Some? ==> event.session == OwnerOf(past))
      && event.coordinatorSequence == Sat(|EventsOf(past)| + 1)
      && Later(past, producer, sequence)
  }

  /** Source sequence `sequence` comes after everything accepted from this producer. */
  ghost predicate Later<T>(past: seq<Happening<T>>, producer: Id, sequence: u64) {
    forall i :: 0 <= i < |past| ==> EarlierAt(past, i, producer, sequence)
  }

  predicate EarlierAt<T>(past: seq<Happening<T>>, i: nat, producer: Id, sequence: u64)
    requires i < |past|
  {
    past[i].Moved? && past[i].producer == producer ==> past[i].sourceSequence < sequence
  }

  ghost predicate Tracked<T>(lastSource: map<Id, u64>, past: seq<Happening<T>>) {
    && (forall i :: 0 <= i < |past| ==> CoveredAt(lastSource, past, i))
    && lastSource.Keys == Heard(past)
    && (forall id <- lastSource :: Delivered(past, id, lastSource[id]))
  }

  predicate CoveredAt<T>(lastSource: map<Id, u64>, past: seq<Happening<T>>, i: nat)
    requires i < |past|
  {
    past[i].Moved? ==>
      past[i].producer in lastSource && past[i].sourceSequence <= lastSource[past[i].producer]
  }

  /** Every producer something was accepted from. */
  function Heard<T>(past: seq<Happening<T>>): set<Id> {
    if past == [] then {}
    else
      var last := past[|past| - 1];
      Heard(past[..|past| - 1]) + (if last.Moved? then {last.producer} else {})
  }

  predicate Delivered<T>(past: seq<Happening<T>>, producer: Id, sequence: u64) {
    exists i :: 0 <= i < |past| && DeliveredAt(past, i, producer, sequence)
  }

  predicate DeliveredAt<T>(past: seq<Happening<T>>, i: nat, producer: Id, sequence: u64)
    requires i < |past|
  {
    past[i].Moved? && past[i].producer == producer && past[i].sourceSequence == sequence
  }

  /** The state but for its producers is what the past says. */
  ghost predicate Placed<T>(s: State, past: seq<Happening<T>>) {
    && s.phase == PhaseOf(past)
    && s.active == OwnerOf(past)
    && s.sequence == Sat(|EventsOf(past)|)
    && (s.active.Some? ==> Live(s.phase))
    && (Live(s.phase) ==> (s.active.None? <==> ArmedByEvent(past)))
  }

  ghost predicate Consistent<T>(s: State, past: seq<Happening<T>>) {
    Placed(s, past) && |s.lastSource| <= MAXIMUM_PRODUCERS && Tracked(s.lastSource, past)
  }

  lemma SnocLast<T>(past: seq<Happening<T>>, h: Happening<T>)
    ensures (past + [h])[..|past|] == past && (past + [h])[|past|] == h
  {
  }

  lemma BeginConsistent<T>(s: State, past: seq<Happening<T>>, id: Id)
    requires Consistent(s, past) && BeginSession(s, id).1 == Applied
    ensures Consistent(BeginSession(s, id).0, past + [Began(id)]) && InOrder(past, Began(id))
  {
    SnocLast(past, Began(id));
    TrackedStill(s.lastSource, past, Began(id));
  }

  lemma AcceptConsistent<T>(s: State, past: seq<Happening<T>>, ingress: Ingress<T>, next: Phase, event: DomainEvent<T>)
    requires Consistent(s, past) && Refusal(s, ingress, next).None?
    requires event.session == ingress.session && event.coordinatorSequence == Sat(s.sequence + 1)
    ensures var h := Moved(ingress.producer, ingress.sourceSequence, next, event);
      Consistent(Accept(s, ingress, next), past + [h]) && InOrder(past, h)
  {
    var h := Moved(ingress.producer, ingress.sourceSequence, next, event);
    TrackedOn(s.lastSource, past, h);
    StillRoom(s, ingress, next);
    StateMoves(s, past, ingress, next, h);
    MoveInOrder(s, past, ingress, next, h);
  }

  lemma MoveInOrder<T>(s: State, past: seq<Happening<T>>, ingress: Ingress<T>, next: Phase, h: Happening<T>)
    requires Placed(s, past) && Refusal(s, ingress, next).None? && Later(past, ingress.producer, ingress.sourceSequence)
    requires h.Moved? && h.producer == ingress.producer && h.sourceSequence == ingress.sourceSequence && h.to == next
    requires h.event.session == ingress.session && h.event.coordinatorSequence == Sat(s.sequence + 1)
    ensures InOrder(past, h)
  {
  }

  lemma StateMoves<T>(s: State, past: seq<Happening<T>>, ingress: Ingress<T>, next: Phase, h: Happening<T>)
    requires h.Moved? && h.to == next && TransitionAllowed(s.phase, next) && Placed(s, past)
    ensures Placed(Accept(s, ingress, next), past + [h])
  {
    MovedOn(past, h);
  }

  lemma StillRoom<T>(s: State, ingress: Ingress<T>, next: Phase)
    requires |s.lastSource| <= MAXIMUM_PRODUCERS && Refusal(s, ingress, next).None?
    ensures |Accept(s, ingress, next).lastSource| <= MAXIMUM_PRODUCERS
  {
    assert Accept(s, ingress, next).lastSource.Keys == s.lastSource.Keys + {ingress.producer};
  }

  /** What one more accepted event does to the past. */
  lemma MovedOn<T>(past: seq<Happening<T>>, h: Happening<T>)
    requires h.Moved?
    ensures PhaseOf(past + [h]) == h.to
    ensures OwnerOf(past + [h]) == if Terminal(h.to) then None else OwnerOf(past)
    ensures |EventsOf(past + [h])| == |EventsOf(past)| + 1
    ensures ArmedByEvent(past + [h]) <==> h.to == Arming || ArmedByEvent(past)
  {
    SnocLast(past, h);
  }

  lemma TrackedOn<T>(lastSource: map<Id, u64>, past: seq<Happening<T>>, h: Happening<T>)
    requires Tracked(lastSource, past) && h.Moved?
    requires h.producer in lastSource ==> lastSource[h.producer] < h.sourceSequence
    ensures Tracked(lastSource[h.producer := h.sourceSequence], past + [h])
    ensures Later(past, h.producer, h.sourceSequence)
  {
    var next, all := lastSource[h.producer := h.sourceSequence], past + [h];
    SnocLast(past, h);
    assert next.Keys == lastSource.Keys + {h.producer};
    forall id <- next
      ensures Delivered(all, id, next[id])
    {
      if id == h.producer {
        assert DeliveredAt(all, |past|, id, next[id]);
      } else {
        var i :| 0 <= i < |past| && DeliveredAt(past, i, id, lastSource[id]);
        assert DeliveredAt(all, i, id, next[id]);
      }
    }
    forall i | 0 <= i < |all|
      ensures CoveredAt(next, all, i)
    {
      if i < |past| { assert all[i] == past[i] && CoveredAt(lastSource, past, i); }
    }
    forall i | 0 <= i < |past|
      ensures EarlierAt(past, i, h.producer, h.sourceSequence)
    {
      assert CoveredAt(lastSource, past, i);
    }
  }

  lemma TrackedStill<T>(lastSource: map<Id, u64>, past: seq<Happening<T>>, h: Happening<T>)
    requires Tracked(lastSource, past) && h.Began?
    ensures Tracked(lastSource, past + [h])
  {
    var all := past + [h];
    SnocLast(past, h);
    forall id <- lastSource
      ensures Delivered(all, id, lastSource[id])
    {
      var i :| 0 <= i < |past| && DeliveredAt(past, i, id, lastSource[id]);
      assert DeliveredAt(all, i, id, lastSource[id]);
    }
    forall i | 0 <= i < |all|
      ensures CoveredAt(lastSource, all, i)
    {
      if i < |past| { assert all[i] == past[i] && CoveredAt(lastSource, past, i); }
    }
  }

  lemma StepConsistent<T>(s: State, past: seq<Happening<T>>, input: Input<T>)
    requires Consistent(s, past)
    ensures var (next, more) := Step(s, input);
      && Consistent(next, past + more)
      && OneAtMost(past, more)
      && (more == [] ==> next == s)
  {
    match input
    case Begin(id) => StepBegins(s, past, id);
    case Deliver(ingress, next, ns) => StepDelivers(s, past, ingress, next, ns);
  }

  lemma StepBegins<T>(s: State, past: seq<Happening<T>>, id: Id)
    requires Consistent(s, past)
    ensures var (next, more) := Step(s, Input.Begin(id));
      && Consistent(next, past + more)
      && OneAtMost(past, more)
      && (more == [] ==> next == s)
  {
    assert past + [] == past;
    if BeginSession(s, id).1 == Applied { BeginConsistent(s, past, id); }
  }

  lemma StepDelivers<T>(s: State, past: seq<Happening<T>>, ingress: Ingress<T>, next: Phase, ns: u64)
    requires Consistent(s, past)
    ensures var (d, more) := Step(s, Deliver(ingress, next, ns));
      && Consistent(d, past + more)
      && OneAtMost(past, more)
      && (more == [] ==> d == s)
  {
    assert past + [] == past;
    StepIs(s, ingress, next, ns);
    if Refusal(s, ingress, next).None? {
      AcceptConsistent(s, past, ingress, next, EventFor(ingress, Sat(s.sequence + 1), ns));
    }
  }

  lemma StepIs<T>(s: State, ingress: Ingress<T>, next: Phase, ns: u64)
    ensures Step(s, Deliver(ingress, next, ns)) ==
      if Refusal(s, ingress, next).Some? then (s, [])
      else (Accept(s, ingress, next), [Moved(ingress.producer, ingress.sourceSequence, next,
        EventFor(ingress, Sat(s.sequence + 1), ns))])
  {
  }

  /** At most one thing happened, and in order. */
  ghost predicate OneAtMost<T>(past: seq<Happening<T>>, more: seq<Happening<T>>) {
    more == [] || (|more| == 1 && InOrder(past, more[0]))
  }

  /** The emitted events are numbered 1, 2, 3, ... (until 64 bits are full). */
  ghost predicate Numbered<T>(events: seq<DomainEvent<T>>) {
    forall i :: 0 <= i < |events| ==> events[i].coordinatorSequence == Sat(i + 1)
  }

  lemma NumberedOn<T>(past: seq<Happening<T>>, h: Happening<T>)
    requires Numbered(EventsOf(past)) && InOrder(past, h)
    ensures Numbered(EventsOf(past + [h]))
  {
    SnocLast(past, h);
  }

  lemma {:induction false} EventsNumbered<T>(inputs: seq<Input<T>>)
    ensures Numbered(EventsOf(Run(inputs).1))
  {
    if inputs != [] {
      var (s, past) := Run(inputs[..|inputs| - 1]);
      var (_, more) := Step(s, inputs[|inputs| - 1]);
      EventsNumbered(inputs[..|inputs| - 1]);
      RunConsistent(inputs[..|inputs| - 1]);
      StepConsistent(s, past, inputs[|inputs| - 1]);
      if more == [] {
        assert past + more == past;
      } else {
        assert more == [more[0]];
        NumberedOn(past, more[0]);
      }
    }
  }

  /** Over every run: an active session implies a live phase, and is the one last begun and
      not ended; at most 64 producers are tracked; a live phase without a session means,
      exactly, that an event armed it. */
  lemma {:induction false} RunConsistent<T>(inputs: seq<Input<T>>)
    ensures Consistent(Run(inputs).0, Run(inputs).1)
  {
    if inputs != [] {
      RunConsistent(inputs[..|inputs| - 1]);
      StepConsistent(Run(inputs[..|inputs| - 1]).0, Run(inputs[..|inputs| - 1]).1, inputs[|inputs| - 1]);
    }
  }

  /** Over every run, everything that happened was in order when it did: sessions never
      overlap, phases follow the graph, an event naming a session came while that session
      was active, events are numbered 1, 2, 3, ..., and each producer's sequence increases. */
  lemma {:induction false} RunInOrder<T>(inputs: seq<Input<T>>, i: nat)
    requires i < |Run(inputs).1|
    ensures InOrder(Run(inputs).1[..i], Run(inputs).1[i])
  {
    var init := inputs[..|inputs| - 1];
    var (s, past) := Run(init);
    var (_, more) := Step(s, inputs[|inputs| - 1]);
    if i < |past| {
      RunInOrder(init, i);
      assert (past + more)[..i] == past[..i];
    } else {
      RunConsistent(init);
      StepConsistent(s, past, inputs[|inputs| - 1]);
      assert (past + more)[..i] == past && (past + more)[i] == more[0];
    }
  }

  /** No phase is skipped in any run: a reducer at one phase went through every earlier one
      since it was last idle, in order and with nothing in between. */
  lemma {:induction false} NoPhaseSkipped<T>(inputs: seq<Input<T>>, n: nat, j: nat)
    requires n <= |Run(inputs).1| && OnPath(PhaseOf(Run(inputs).1[..n]))
    requires j <= Rank(PhaseOf(Run(inputs).1[..n]))
    ensures var past, k := Run(inputs).1, Rank(PhaseOf(Run(inputs).1[..n]));
      && k - j <= n
      && OnPath(PhaseOf(past[..n - (k - j)])) && Rank(PhaseOf(past[..n - (k - j)])) == j
    decreases n
  {
    var past := Run(inputs).1;
    if j < Rank(PhaseOf(past[..n])) {
      assert past[..n][..n - 1] == past[..n - 1];
      RunInOrder(inputs, n - 1);
      GraphShape(PhaseOf(past[..n - 1]), PhaseOf(past[..n]));
      NoPhaseSkipped(inputs, n - 1, j);
    }
  }

  /** A refused input changes nothing. */
  lemma RefusedChangesNothing<T>(s: State, ingress: Ingress<T>, next: Phase, ns: u64, id: Id)
    ensures Apply(s, ingress, next, ns).1 != Applied ==>
      Apply(s, ingress, next, ns).0 == s && Apply(s, ingress, next, ns).2.None?
    ensures Apply(s, ingress, next, ns).1 == Applied <==> Apply(s, ingress, next, ns).2.Some?
    ensures BeginSession(s, id).1 != Applied ==> BeginSession(s, id).0 == s
  {
  }

  /** A live phase need not have a session: an event that names none can arm an idle reducer. */
  lemma LiveWithoutSession<T>(ingress: Ingress<T>, ns: u64) returns (inputs: seq<Input<T>>)
    requires ingress.session.None?
    ensures Live(Run(inputs).0.phase) && Run(inputs).0.active.None?
  {
    inputs := [Deliver(ingress, Arming, ns)];
    assert inputs[..0] == [];
  }

  /** The sequence comes after everything accepted from the producer exactly if it exceeds the
      last of them, if there is one. */
  lemma LaterExactly<T>(lastSource: map<Id, u64>, past: seq<Happening<T>>, producer: Id, sequence: u64)
    requires Tracked(lastSource, past)
    ensures Later(past, producer, sequence) <==> (producer in lastSource ==> lastSource[producer] < sequence)
  {
    if producer in lastSource {
      var i :| 0 <= i < |past| && DeliveredAt(past, i, producer, lastSource[producer]);
      assert Later(past, producer, sequence) ==> EarlierAt(past, i, producer, sequence);
    }
    forall j | 0 <= j < |past|
      ensures (producer in lastSource ==> lastSource[producer] < sequence) ==> EarlierAt(past, j, producer, sequence)
    {
      assert CoveredAt(lastSource, past, j);
    }
  }

  /** The first condition that fails, if one does. */
  function FirstFailure(named: bool, later: bool, room: bool, allowed: bool): Disposition {
    if !named then StaleSession
    else if !later then DuplicateOrOutOfOrder
    else if !room then ProducerCapacityExceeded
    else if !allowed then InvalidTransition
    else Applied
  }

  /** The event an ingress event is passed on as. */
  function EventFor<T>(ingress: Ingress<T>, number: u64, ns: u64): DomainEvent<T> {
    DomainEvent(ingress.correlation, ingress.session, number, ns, ingress.payload)
  }

  /** What becomes of an event over every run, from what happened before alone: it is applied
      exactly if it names no session or the one begun and not ended, its sequence exceeds
      everything accepted from its producer, that producer was heard before or fewer than 64
      were, and the graph allows the phase; otherwise the first of these that fails is named. */
  lemma DeliveredExactly<T>(inputs: seq<Input<T>>, ingress: Ingress<T>, next: Phase, ns: u64)
    ensures var (s, past) := Run(inputs);
      var (_, disposition, event) := Apply(s, ingress, next, ns);
      && disposition == FirstFailure(
           ingress.session.None? || ingress.session == OwnerOf(past),
           Later(past, ingress.producer, ingress.sourceSequence),
           ingress.producer in Heard(past) || |Heard(past)| < 64,
           TransitionAllowed(PhaseOf(past), next))
      && event == (if disposition != Applied then None else Some(EventFor(ingress, Sat(|EventsOf(past)| + 1), ns)))
  {
    RunConsistent(inputs);
    DeliveredFrom(Run(inputs).0, Run(inputs).1, ingress, next, ns);
  }

  lemma DeliveredFrom<T>(s: State, past: seq<Happening<T>>, ingress: Ingress<T>, next: Phase, ns: u64)
    requires Consistent(s, past)
    ensures var (_, disposition, event) := Apply(s, ingress, next, ns);
      && disposition == FirstFailure(
           ingress.session.None? || ingress.session == OwnerOf(past),
           Later(past, ingress.producer, ingress.sourceSequence),
           ingress.producer in Heard(past) || |Heard(past)| < 64,
           TransitionAllowed(PhaseOf(past), next))
      && event == (if disposition != Applied then None else Some(EventFor(ingress, Sat(|EventsOf(past)| + 1), ns)))
  {
    LaterExactly(s.lastSource, past, ingress.producer, ingress.sourceSequence);
    AnsweredExactly(s, Heard(past), Later(past, ingress.producer, ingress.sourceSequence), ingress, next, ns);
  }

  lemma AnsweredExactly<T>(s: State, heard: set<Id>, later: bool, ingress: Ingress<T>, next: Phase, ns: u64)
    requires s.lastSource.Keys == heard && |s.lastSource| <= 64
    requires later <==>
      (ingress.producer in s.lastSource ==> s.lastSource[ingress.producer] < ingress.sourceSequence)
    ensures var (_, disposition, event) := Apply(s, ingress, next, ns);
      && disposition == FirstFailure(
           ingress.session.None? || ingress.session == s.active, later,
           ingress.producer in heard || |heard| < 64, TransitionAllowed(s.phase, next))
      && event == (if disposition != Applied then None else Some(EventFor(ingress, Sat(s.sequence + 1), ns)))
  {
    assert |s.lastSource| == |s.lastSource.Keys|;
  }

  /** A session begins exactly if none is under way and the reducer is idle. */
  lemma BeginsExactly<T>(inputs: seq<Input<T>>, id: Id)
    ensures var (s, past) := Run(inputs);
      BeginSession(s, id).1 ==
        if OwnerOf(past).None? && PhaseOf(past) == Idle then Applied else InvalidTransition
  {
    RunConsistent(inputs);
  }
}
