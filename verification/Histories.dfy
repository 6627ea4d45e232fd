/** What a machine's record of the installed version is worth, over every history of install
    attempts and uninstalls, each answered as the system likes and stopped anywhere. */
module Histories {
  import opened Prelude
  import opened Disk
  import opened Versions
  import opened InstallSteps

  /** How versions are written and compared, what each carries, and where it goes. */
  datatype Series<!V> = Series(rules: Rules<V>, payload: V -> seq<Entry>, root: Path)

  function Carried<V>(s: Series<V>, v: V): seq<File> {
    Listing(s.payload(v), s.root)
  }

  function Tree<V>(s: Series<V>, v: V): map<Path, Bytes> {
    Laid(Carried(s, v))
  }

  ghost predicate Sound<V(!new)>(s: Series<V>) {
    Lawful(s.rules) && forall v: V :: Distinct(Carried(s, v))
  }

  /** An attempt at a version or an uninstall; it is stopped after `stop` steps, if it has
      not come to its end before. Setup decides when it starts and may attempt more than once
      on that decision: `decided` says how many events had happened when it was made. */
  datatype Event<V> =
    | Attempt(version: V, decided: nat, answers: Answers, stop: nat)
    | Uninstall(program: seq<Path>, data: seq<Path>, answers: Answers, stop: nat)

  function Ran<V>(s: Series<V>, w: World, e: Event<V>): Run {
    match e
    case Attempt(v, _, answers, _) =>
      PerformInstall(answers, StartedOn(w), Some(s.payload(v)), s.root, s.rules.show(v)).0
    case Uninstall(program, data, answers, _) =>
      PerformUninstall(answers, StartedOn(w), program, data).0
  }

  /** How many steps were made. */
  function Made<V>(s: Series<V>, w: World, e: Event<V>): nat {
    Min(e.stop, |Ran(s, w, e).past|)
  }

  function After<V>(s: Series<V>, w: World, e: Event<V>): World {
    if Made(s, w, e) == 0 then w else Ran(s, w, e).past[Made(s, w, e) - 1]
  }

  predicate Finished<V>(s: Series<V>, w: World, e: Event<V>) {
    e.Attempt? && Made(s, w, e) == AllSteps(Carried(s, e.version))
  }

  predicate Clears<V>(e: Event<V>) {
    e.Uninstall? && e.stop >= 1 && e.answers(0) == Works
  }

  function History<V>(s: Series<V>, start: World, events: seq<Event<V>>): World {
    if events == [] then start
    else After(s, History(s, start, events[..|events| - 1]), events[|events| - 1])
  }

  /** The world event `i` meets; for `i == |events|`, the world now. */
  function Before<V>(s: Series<V>, start: World, events: seq<Event<V>>, i: nat): World
    requires i <= |events|
  {
    History(s, start, events[..i])
  }

  /** The decision event `i` was made on allowed it, if it is an attempt. */
  predicate Allowed<V>(s: Series<V>, start: World, events: seq<Event<V>>, i: nat)
    requires i < |events|
  {
    events[i].Attempt? ==>
      && events[i].decided <= i
      && MayProceed(Decide(s.rules, Before(s, start, events, events[i].decided).stamp, events[i].version, false))
  }

  /** Every attempt was made on a decision that allowed it. */
  ghost predicate Permitted<V>(s: Series<V>, start: World, events: seq<Event<V>>) {
    forall i :: 0 <= i < |events| ==> Allowed(s, start, events, i)
  }

  lemma NextWorld<V>(s: Series<V>, start: World, events: seq<Event<V>>, i: nat)
    requires i < |events|
    ensures Before(s, start, events, i + 1) == After(s, Before(s, start, events, i), events[i])
  {
    assert events[..i + 1][..i] == events[..i];
  }

  /** The world after an event, in closed form. */
  lemma AfterIs<V>(s: Series<V>, w: World, e: Event<V>)
    ensures match e
      case Attempt(v, _, answers, stop) =>
        && Made(s, w, e) <= AllSteps(Carried(s, v))
        && After(s, w, e) == InstallState(w, Carried(s, v), s.rules.show(v), Made(s, w, e))
        && (Granted(answers) ==> Made(s, w, e) == Min(stop, AllSteps(Carried(s, v))))
      case Uninstall(program, data, answers, stop) =>
        && Made(s, w, e) == Min(stop, UNINSTALL_HEAD + |program + data|)
        && After(s, w, e) == UninstallState(answers, w, program + data, Made(s, w, e))
  {
    match e
    case Attempt(v, _, answers, _) =>
      InstallIsSteps(answers, StartedOn(w), Some(s.payload(v)), s.root, s.rules.show(v));
    case Uninstall(program, data, answers, _) =>
      UninstallIsSteps(answers, w, program, data);
  }

  // ---- trying again ----

  /** An attempt, answered as the system likes and stopped anywhere: either it is done, the same
      version is refused by every later decision and every file it carries is there whole; or
      the record is untouched. */
  lemma AttemptOrDone<V(!new)>(s: Series<V>, w: World, e: Event<V>)
    requires Sound(s) && e.Attempt?
    ensures var d := After(s, w, e);
      if Finished(s, w, e) then
        && d.stamp == Some(s.rules.show(e.version))
        && Decide(s.rules, d.stamp, e.version, false) == RefuseSameVersion(e.version)
        && AllWhole(d.files, Tree(s, e.version))
      else d.stamp == w.stamp
  {
    AfterIs(s, w, e);
    var list := Carried(s, e.version);
    AllCopied(w.files, list, |list|);
    assert list[..|list|] == list;
    DecisionMeans(s.rules, After(s, w, e).stamp, e.version, false);
  }

  /** Recovery, over every permitted history: wherever each event was stopped and whatever the
      system answered, an attempt either finished whole or left the record alone. Made again,
      with every request granted, it finishes; and a new run of setup may make it again exactly
      if the record still allowed it when it was made, as it did if nothing had changed the
      record since setup decided. Once an uninstall has made its first request, the machine
      reads as fresh for every version exactly if the request was granted or nothing was
      recorded. */
  lemma Recovery<V(!new)>(s: Series<V>, start: World, events: seq<Event<V>>, i: nat, again: Event<V>)
    requires Sound(s) && Permitted(s, start, events) && i < |events|
    ensures var w, d := Before(s, start, events, i), Before(s, start, events, i + 1);
      match events[i]
      case Attempt(v, decided, _, _) =>
        if Finished(s, w, events[i]) then
          Decide(s.rules, d.stamp, v, false) == RefuseSameVersion(v) && AllWhole(d.files, Tree(s, v))
        else
          && d.stamp == w.stamp
          && (MayProceed(Decide(s.rules, d.stamp, v, false)) <==> MayProceed(Decide(s.rules, w.stamp, v, false)))
          && ((forall k :: decided <= k < i ==> LeavesRecord(s, start, events, k)) ==>
                MayProceed(Decide(s.rules, d.stamp, v, false)))
          && (again.Attempt? && again.version == v && Granted(again.answers)
              && again.stop >= AllSteps(Carried(s, v)) ==>
                && After(s, d, again).stamp == Some(s.rules.show(v))
                && AllWhole(After(s, d, again).files, Tree(s, v)))
      case Uninstall(_, _, answers, stop) =>
        stop >= 1 ==> forall u: V ::
          Decide(s.rules, d.stamp, u, false) == Fresh <==> answers(0) == Works || Blank(s.rules, w.stamp)
  {
    var w, d := Before(s, start, events, i), Before(s, start, events, i + 1);
    NextWorld(s, start, events, i);
    AfterIs(s, w, events[i]);
    if events[i].Attempt? {
      AttemptOrDone(s, w, events[i]);
      assert Allowed(s, start, events, i);
      if forall k :: events[i].decided <= k < i ==> LeavesRecord(s, start, events, k) {
        SameRecord(s, start, events, events[i].decided, i);
      }
      if !Finished(s, w, events[i]) && again.Attempt? && again.version == events[i].version {
        AfterIs(s, d, again);
        AttemptOrDone(s, d, again);
      }
    }
  }

  // ---- what the record says of the files ----

  /** Going by the steps made, the event leaves every file of `tree` as it is. */
  ghost predicate Harmless<V>(s: Series<V>, tree: map<Path, Bytes>, w: World, e: Event<V>) {
    match e
    case Attempt(v, _, _, _) => Spares(tree, Carried(s, v), Min(Made(s, w, e), 2 * |Carried(s, v)|))
    case Uninstall(program, data, answers, stop) =>
      forall k :: 0 <= k < |program + data| && UNINSTALL_HEAD + k < stop && (program + data)[k] in tree ==>
        answers(UNINSTALL_HEAD + k) != Works
  }

  lemma HarmlessKeepsWhole<V(!new)>(s: Series<V>, tree: map<Path, Bytes>, w: World, e: Event<V>)
    requires Sound(s) && AllWhole(w.files, tree)
    ensures AllWhole(After(s, w, e).files, tree) <==> Harmless(s, tree, w, e)
  {
    AfterIs(s, w, e);
    match e
    case Attempt(v, _, _, _) =>
      WholeIfSpared(w.files, tree, Carried(s, v), Min(Made(s, w, e), 2 * |Carried(s, v)|));
    case Uninstall(program, data, answers, stop) =>
      RemovalHarms(answers, w, tree, program + data, Made(s, w, e));
  }

  lemma RemovalHarms(answers: Answers, w: World, tree: map<Path, Bytes>, paths: seq<Path>, n: nat)
    requires AllWhole(w.files, tree) && n <= UNINSTALL_HEAD + |paths|
    ensures AllWhole(UninstallState(answers, w, paths, n).files, tree) <==>
      forall k :: 0 <= k < |paths| && UNINSTALL_HEAD + k < n && paths[k] in tree ==>
        answers(UNINSTALL_HEAD + k) != Works
  {
    var asked := if n <= UNINSTALL_HEAD then 0 else n - UNINSTALL_HEAD;
    var left := Remaining(answers, UNINSTALL_HEAD, w.files, paths, asked);
    forall p <- tree
      ensures p in left <==> forall k :: 0 <= k < asked && paths[k] == p ==> answers(UNINSTALL_HEAD + k) != Works
      ensures p in left ==> left[p] == Whole(tree[p])
    {
      Outlives(answers, UNINSTALL_HEAD, w.files, paths, asked, p);
    }
  }

  /** Event `k` neither finished an attempt nor cleared the record. */
  predicate LeavesRecord<V>(s: Series<V>, start: World, events: seq<Event<V>>, k: nat)
    requires k < |events|
  {
    !Finished(s, Before(s, start, events, k), events[k]) && !Clears(events[k])
  }

  /** Since event `i` finished its version, no attempt has finished and no uninstall has
      cleared the record. */
  ghost predicate LastFinished<V>(s: Series<V>, start: World, events: seq<Event<V>>, i: nat, j: nat) {
    && i < j <= |events|
    && Finished(s, Before(s, start, events, i), events[i])
    && forall k :: i < k < j ==> LeavesRecord(s, start, events, k)
  }

  /** What an event does to the record. */
  lemma RecordAfter<V>(s: Series<V>, w: World, e: Event<V>)
    ensures After(s, w, e).stamp ==
      if Finished(s, w, e) then Some(s.rules.show(e.version))
      else if Clears(e) then None
      else w.stamp
  {
    AfterIs(s, w, e);
  }

  lemma RecordNext<V>(s: Series<V>, start: World, events: seq<Event<V>>, j: nat)
    requires j < |events|
    ensures var w := Before(s, start, events, j);
      Before(s, start, events, j + 1).stamp ==
        if Finished(s, w, events[j]) then Some(s.rules.show(events[j].version))
        else if Clears(events[j]) then None
        else w.stamp
  {
    NextWorld(s, start, events, j);
    RecordAfter(s, Before(s, start, events, j), events[j]);
  }

  lemma FinishedAt<V>(s: Series<V>, start: World, events: seq<Event<V>>, i: nat)
    requires i < |events| && Finished(s, Before(s, start, events, i), events[i])
    ensures Before(s, start, events, i + 1).stamp == Some(s.rules.show(events[i].version))
  {
    RecordNext(s, start, events, i);
  }

  lemma RecordKept<V>(s: Series<V>, start: World, events: seq<Event<V>>, j: nat)
    requires j < |events| && LeavesRecord(s, start, events, j)
    ensures Before(s, start, events, j + 1).stamp == Before(s, start, events, j).stamp
  {
    RecordNext(s, start, events, j);
  }

  lemma SameRecord<V>(s: Series<V>, start: World, events: seq<Event<V>>, i: nat, j: nat)
    requires i <= j <= |events| && forall k :: i <= k < j ==> LeavesRecord(s, start, events, k)
    ensures Before(s, start, events, j).stamp == Before(s, start, events, i).stamp
  {
    var stamp := Before(s, start, events, i).stamp;
    for k := i to j
      invariant Before(s, start, events, k).stamp == stamp
    {
      RecordKept(s, start, events, k);
    }
  }

  lemma RecordStays<V>(s: Series<V>, start: World, events: seq<Event<V>>, i: nat, j: nat)
    requires LastFinished(s, start, events, i, j)
    ensures Before(s, start, events, j).stamp == Some(s.rules.show(events[i].version))
  {
    FinishedAt(s, start, events, i);
    SameRecord(s, start, events, i + 1, j);
  }

  ghost predicate WholeThrough<V>(
      s: Series<V>, start: World, events: seq<Event<V>>, tree: map<Path, Bytes>, i: nat, j: nat)
    requires j <= |events|
  {
    forall k :: i <= k <= j ==> AllWhole(Before(s, start, events, k).files, tree)
  }

  ghost predicate HarmlessThrough<V>(
      s: Series<V>, start: World, events: seq<Event<V>>, tree: map<Path, Bytes>, i: nat, j: nat)
    requires j <= |events|
  {
    forall k :: i <= k < j ==> HarmlessAt(s, start, events, tree, k)
  }

  ghost predicate HarmlessAt<V>(s: Series<V>, start: World, events: seq<Event<V>>, tree: map<Path, Bytes>, k: nat)
    requires k < |events|
  {
    Harmless(s, tree, Before(s, start, events, k), events[k])
  }

  /** A tree once whole stays whole through a stretch of events if and only if each of them is
      harmless to it. */
  lemma {:induction false} WholeWhileHarmless<V(!new)>(
      s: Series<V>, start: World, events: seq<Event<V>>, tree: map<Path, Bytes>, i: nat, j: nat)
    requires Sound(s) && i <= j <= |events| && AllWhole(Before(s, start, events, i).files, tree)
    ensures WholeThrough(s, start, events, tree, i, j) <==> HarmlessThrough(s, start, events, tree, i, j)
    decreases j
  {
    if i < j {
      WholeWhileHarmless(s, start, events, tree, i, j - 1);
      OneMoreEvent(s, start, events, tree, i, j - 1);
    }
  }

  lemma OneMoreEvent<V(!new)>(
      s: Series<V>, start: World, events: seq<Event<V>>, tree: map<Path, Bytes>, i: nat, j: nat)
    requires Sound(s) && i <= j < |events|
    requires WholeThrough(s, start, events, tree, i, j) <==> HarmlessThrough(s, start, events, tree, i, j)
    ensures WholeThrough(s, start, events, tree, i, j + 1) <==> HarmlessThrough(s, start, events, tree, i, j + 1)
  {
    var w := Before(s, start, events, j);
    NextWorld(s, start, events, j);
    if AllWhole(w.files, tree) { HarmlessKeepsWhole(s, tree, w, events[j]); }
    assert WholeThrough(s, start, events, tree, i, j + 1) <==>
      WholeThrough(s, start, events, tree, i, j) && AllWhole(After(s, w, events[j]).files, tree);
    assert HarmlessThrough(s, start, events, tree, i, j + 1) <==>
      HarmlessThrough(s, start, events, tree, i, j) && HarmlessAt(s, start, events, tree, j);
  }

  /** A recorded version was put there by an attempt that finished. */
  lemma {:induction false} RecordHasSource<V>(s: Series<V>, start: World, events: seq<Event<V>>, j: nat)
      returns (i: nat)
    requires j <= |events| && start.stamp.None? && Before(s, start, events, j).stamp.Some?
    ensures LastFinished(s, start, events, i, j)
    decreases j
  {
    if j == 0 {
      assert false;
    } else {
      RecordNext(s, start, events, j - 1);
      if Finished(s, Before(s, start, events, j - 1), events[j - 1]) {
        i := j - 1;
      } else {
        i := RecordHasSource(s, start, events, j - 1);
        LastFinishedOn(s, start, events, i, j - 1);
      }
    }
  }

  lemma LastFinishedOn<V>(s: Series<V>, start: World, events: seq<Event<V>>, i: nat, j: nat)
    requires j < |events| && LastFinished(s, start, events, i, j)
    requires LeavesRecord(s, start, events, j)
    ensures LastFinished(s, start, events, i, j + 1)
  {
  }

  /** Whatever a machine recorded, on a machine that began with nothing, whoever decided what:
      the version was finished by some attempt, every decision since refuses it, and its files
      have been whole ever since if and only if every attempt and uninstall since was harmless
      to them. */
  lemma RecordVouches<V(!new)>(s: Series<V>, start: World, events: seq<Event<V>>) returns (i: nat)
    requires Sound(s)
    requires start.stamp.None? && History(s, start, events).stamp.Some?
    ensures LastFinished(s, start, events, i, |events|)
    ensures var v, now := events[i].version, History(s, start, events);
      && now.stamp == Some(s.rules.show(v))
      && Decide(s.rules, now.stamp, v, false) == RefuseSameVersion(v)
      && AllWhole(Before(s, start, events, i + 1).files, Tree(s, v))
      && (WholeThrough(s, start, events, Tree(s, v), i + 1, |events|) <==>
          HarmlessThrough(s, start, events, Tree(s, v), i + 1, |events|))
  {
    assert events[..|events|] == events;
    i := RecordHasSource(s, start, events, |events|);
    RecordStays(s, start, events, i, |events|);
    FinishedWhole(s, start, events, i);
    WholeWhileHarmless(s, start, events, Tree(s, events[i].version), i + 1, |events|);
  }

  lemma FinishedWhole<V(!new)>(s: Series<V>, start: World, events: seq<Event<V>>, i: nat)
    requires Sound(s) && i < |events|
    requires Finished(s, Before(s, start, events, i), events[i])
    ensures AllWhole(Before(s, start, events, i + 1).files, Tree(s, events[i].version))
  {
    NextWorld(s, start, events, i);
    AttemptOrDone(s, Before(s, start, events, i), events[i]);
  }

  function Grants(): Answers { (n: nat) => Works }

  /** Whether an upgrade may be stopped anywhere without harm can be told before it starts:
      exactly if the two versions share no file. */
  lemma StoppingIsHarmlessIffApart<V(!new)>(s: Series<V>, w: World, v: V, u: V)
    requires Sound(s) && AllWhole(w.files, Tree(s, v))
    ensures
      (forall e: Event<V> :: e.Attempt? && e.version == u && !Finished(s, w, e) ==>
         AllWhole(After(s, w, e).files, Tree(s, v)))
      <==> (forall f <- Carried(s, u) :: f.path !in Tree(s, v))
  {
    if f :| f in Carried(s, u) && f.path in Tree(s, v) {
      var k: nat :| k < |Carried(s, u)| && Carried(s, u)[k] == f;
      var e := Attempt(u, 0, Grants(), 2 * k + 1);
      StoppedMidFile(s, w, u, k, 0);
      assert !AllWhole(After(s, w, e).files, Tree(s, v));
    } else {
      forall e: Event<V> | e.Attempt? && e.version == u
        ensures AllWhole(After(s, w, e).files, Tree(s, v))
      {
        HarmlessKeepsWhole(s, Tree(s, v), w, e);
      }
    }
  }

  lemma StoppedMidFile<V(!new)>(s: Series<V>, w: World, u: V, k: nat, decided: nat)
    requires Sound(s) && k < |Carried(s, u)|
    ensures var e := Attempt(u, decided, Grants(), 2 * k + 1);
      var d := After(s, w, e);
      && !Finished(s, w, e) && d.stamp == w.stamp
      && Carried(s, u)[k].path in d.files && d.files[Carried(s, u)[k].path] == Truncated
  {
    AfterIs(s, w, Attempt(u, decided, Grants(), 2 * k + 1));
    Reached(w.files, Carried(s, u), 2 * k + 1, k);
  }

  // ---- never the wrong way ----

  predicate AtLeast<V(==)>(r: Rules<V>, low: V, v: V) {
    v == low || r.compare(low, v) == Less
  }

  ghost predicate RecordsAtLeast<V(!new)>(r: Rules<V>, stamp: Option<string>, low: V) {
    exists v: V :: stamp == Some(r.show(v)) && AtLeast(r, low, v)
  }

  ghost predicate RecordedAtLeast<V(!new)>(s: Series<V>, start: World, events: seq<Event<V>>, k: nat, low: V)
    requires k <= |events|
  {
    RecordsAtLeast(s.rules, Before(s, start, events, k).stamp, low)
  }

  /** An attempt on a decision made while the record was at least `low` is for a newer version. */
  lemma DecidedAbove<V(!new)>(s: Series<V>, start: World, events: seq<Event<V>>, k: nat, low: V)
    requires Lawful(s.rules) && k < |events| && events[k].Attempt? && Allowed(s, start, events, k)
    requires RecordedAtLeast(s, start, events, events[k].decided, low)
    ensures s.rules.compare(low, events[k].version) == Less
  {
    var stamp := Before(s, start, events, events[k].decided).stamp;
    var v: V :| stamp == Some(s.rules.show(v)) && AtLeast(s.rules, low, v);
    DecisionMeans(s.rules, stamp, events[k].version, false);
    assert s.rules.compare(v, events[k].version) == Less;
  }

  lemma RecordRises<V(!new)>(s: Series<V>, start: World, events: seq<Event<V>>, k: nat, low: V)
    requires k < |events| && !Clears(events[k]) && RecordedAtLeast(s, start, events, k, low)
    requires events[k].Attempt? ==> s.rules.compare(low, events[k].version) == Less
    ensures RecordedAtLeast(s, start, events, k + 1, low)
  {
    RecordNext(s, start, events, k);
    if events[k].Attempt? { assert AtLeast(s.rules, low, events[k].version); }
  }

  /** Event `k` does not clear the record, and if it is an attempt it was decided after event `i`. */
  predicate DecidedAnew<V>(events: seq<Event<V>>, i: nat, k: nat)
    requires k < |events|
  {
    !Clears(events[k]) && (events[k].Attempt? ==> i < events[k].decided)
  }

  ghost predicate RecordedSince<V(!new)>(
      s: Series<V>, start: World, events: seq<Event<V>>, i: nat, k: nat, low: V)
    requires k <= |events|
  {
    forall m :: i < m <= k ==> RecordedAtLeast(s, start, events, m, low)
  }

  lemma RecordedOn<V(!new)>(s: Series<V>, start: World, events: seq<Event<V>>, i: nat, k: nat, low: V)
    requires Lawful(s.rules) && i < k < |events| && Allowed(s, start, events, k) && DecidedAnew(events, i, k)
    requires RecordedSince(s, start, events, i, k, low)
    ensures RecordedSince(s, start, events, i, k + 1, low)
    ensures events[k].Attempt? ==> s.rules.compare(low, events[k].version) == Less
  {
    if events[k].Attempt? { DecidedAbove(s, start, events, k, low); }
    RecordRises(s, start, events, k, low);
  }

  /** Never a downgrade and never the same version twice, among attempts that were decided anew:
      until an uninstall clears the record, an attempt on a decision made after another finished
      is for a strictly newer version, if every attempt between them was decided after it too. */
  lemma OnlyUpwards<V(!new)>(s: Series<V>, start: World, events: seq<Event<V>>, i: nat, j: nat)
    requires Lawful(s.rules) && Permitted(s, start, events) && i < j < |events|
    requires Finished(s, Before(s, start, events, i), events[i]) && events[j].Attempt?
    requires forall k :: i < k <= j ==> DecidedAnew(events, i, k)
    ensures s.rules.compare(events[i].version, events[j].version) == Less
  {
    var low := events[i].version;
    FirstRecorded(s, start, events, i);
    for k := i + 1 to j
      invariant RecordedSince(s, start, events, i, k, low)
    {
      assert Allowed(s, start, events, k);
      RecordedOn(s, start, events, i, k, low);
    }
    assert Allowed(s, start, events, j);
    RecordedOn(s, start, events, i, j, low);
  }

  lemma FirstRecorded<V(!new)>(s: Series<V>, start: World, events: seq<Event<V>>, i: nat)
    requires i < |events| && Finished(s, Before(s, start, events, i), events[i])
    ensures RecordedSince(s, start, events, i, i + 1, events[i].version)
  {
    FinishedAt(s, start, events, i);
    assert AtLeast(s.rules, events[i].version, events[i].version);
  }

  // ---- what goes wrong ----

  const EMPTY := World(map[], None, false, false)

  /** An install with every request granted, on an empty machine, and then one more event. */
  lemma InstalledThen<V(!new)>(s: Series<V>, v: V, e: Event<V>)
    requires Sound(s)
    requires e.Attempt? ==> e.decided == 0 || (e.decided == 1 && s.rules.compare(v, e.version) == Less)
    ensures var events := [Attempt(v, 0, Grants(), AllSteps(Carried(s, v))), e];
      var w := InstallState(EMPTY, Carried(s, v), s.rules.show(v), AllSteps(Carried(s, v)));
      && Permitted(s, EMPTY, events)
      && History(s, EMPTY, events) == After(s, w, e)
      && w.stamp == Some(s.rules.show(v)) && AllWhole(w.files, Tree(s, v))
  {
    var first := Attempt(v, 0, Grants(), AllSteps(Carried(s, v)));
    var events := [first, e];
    AfterIs(s, EMPTY, first);
    AttemptOrDone(s, EMPTY, first);
    assert events[..0] == [] && events[..1] == [first] && [first][..0] == [];
    assert Before(s, EMPTY, events, 0) == EMPTY;
    NextWorld(s, EMPTY, events, 0);
  }

  /** An upgrade stopped while it writes a file of the version it replaces: the machine still
      records that version, refuses to repair it, and the file is cut short. */
  lemma StoppedUpgradeBlocksRepair<V(!new)>(s: Series<V>, v: V, u: V, k: nat)
    requires Sound(s) && s.rules.compare(v, u) == Less
    requires k < |Carried(s, u)| && Carried(s, u)[k].path in Tree(s, v)
    ensures var events := [Attempt(v, 0, Grants(), AllSteps(Carried(s, v))), Attempt(u, 1, Grants(), 2 * k + 1)];
      var now, path := History(s, EMPTY, events), Carried(s, u)[k].path;
      && Permitted(s, EMPTY, events)
      && Decide(s.rules, now.stamp, v, false) == RefuseSameVersion(v)
      && path in now.files && now.files[path] == Truncated
  {
    var w := InstallState(EMPTY, Carried(s, v), s.rules.show(v), AllSteps(Carried(s, v)));
    InstalledThen(s, v, Attempt(u, 1, Grants(), 2 * k + 1));
    StoppedMidFile(s, w, u, k, 1);
  }

  /** Next, Back, Next: setup attempts the same version again on the decision it started with.
      Stopped in the middle of a file, it leaves the version recorded, refused by every new run
      of setup, and broken by itself. */
  lemma SecondAttemptBlocksRepair<V(!new)>(s: Series<V>, v: V, k: nat)
    requires Sound(s) && k < |Carried(s, v)|
    ensures var events := [Attempt(v, 0, Grants(), AllSteps(Carried(s, v))), Attempt(v, 0, Grants(), 2 * k + 1)];
      var now, path := History(s, EMPTY, events), Carried(s, v)[k].path;
      && Permitted(s, EMPTY, events)
      && Decide(s.rules, now.stamp, v, false) == RefuseSameVersion(v)
      && path in now.files && now.files[path] == Truncated
  {
    var w := InstallState(EMPTY, Carried(s, v), s.rules.show(v), AllSteps(Carried(s, v)));
    InstalledThen(s, v, Attempt(v, 0, Grants(), 2 * k + 1));
    StoppedMidFile(s, w, v, k, 0);
  }

  /** Two setups open at once: the one that decided before the other finished may put an older
      version over a newer one. */
  lemma OldDecisionDowngrades<V(!new)>(s: Series<V>, v: V, u: V)
    requires Sound(s) && s.rules.compare(v, u) == Less
    ensures var events :=
        [Attempt(u, 0, Grants(), AllSteps(Carried(s, u))), Attempt(v, 0, Grants(), AllSteps(Carried(s, v)))];
      Permitted(s, EMPTY, events) && History(s, EMPTY, events).stamp == Some(s.rules.show(v))
  {
    var last := Attempt(v, 0, Grants(), AllSteps(Carried(s, v)));
    var w := InstallState(EMPTY, Carried(s, u), s.rules.show(u), AllSteps(Carried(s, u)));
    InstalledThen(s, u, last);
    AfterIs(s, w, last);
  }

  function GrantsAllButFirst(): Answers { (n: nat) => if n == 0 then Refuses else Works }

  /** An uninstall whose first request, the version record, is refused removes everything else
      regardless: the machine then refuses the version whose files are gone. */
  lemma RefusedDeletionBlocksReinstall<V(!new)>(s: Series<V>, v: V)
    requires Sound(s)
    ensures var list := Carried(s, v);
      var paths := seq(|list|, i requires 0 <= i < |list| => list[i].path);
      var e := Uninstall(paths, [], GrantsAllButFirst(), UNINSTALL_HEAD + |paths|);
      var events := [Attempt(v, 0, Grants(), AllSteps(list)), e];
      var now := History(s, EMPTY, events);
      && Permitted(s, EMPTY, events)
      && Decide(s.rules, now.stamp, v, false) == RefuseSameVersion(v)
      && forall f <- list :: f.path !in now.files
  {
    var list := Carried(s, v);
    var paths := seq(|list|, i requires 0 <= i < |list| => list[i].path);
    var e := Uninstall(paths, [], GrantsAllButFirst(), UNINSTALL_HEAD + |paths|);
    var w := InstallState(EMPTY, list, s.rules.show(v), AllSteps(list));
    InstalledThen(s, v, e);
    assert paths + [] == paths;
    AfterIs(s, w, e);
    forall f <- list
      ensures f.path !in After(s, w, e).files
    {
      var k: nat :| k < |list| && list[k] == f;
      Outlives(e.answers, UNINSTALL_HEAD, w.files, paths, |paths|, f.path);
      assert paths[k] == f.path && e.answers(UNINSTALL_HEAD + k) == Works;
    }
  }

  // ---- a series to speak of ----

  function Tally(v: nat): string { seq(v + 1, i => 'x') }

  function Count(text: string): Option<nat> { if text == "" then None else Some(|text| - 1) }

  function Compare(a: nat, b: nat): Order { if a < b then Less else if a == b then Equal else Greater }

  const TALLIES := Rules((t: string) => t, Count, Tally, Compare)

  lemma TalliesAreLawful()
    ensures Lawful(TALLIES)
  {
  }

  /** Version `v` carries one program file that says so. */
  const EXAMPLE := Series(TALLIES, (v: nat) => [FileEntry("app.exe", [v])], ["root"])

  lemma ExampleCarries(v: nat)
    ensures Carried(EXAMPLE, v) == [File(["root", "app.exe"], [v])]
  {
    var entries := [FileEntry("app.exe", [v])];
    assert EXAMPLE.payload(v) == entries && entries[1..] == [];
    assert Listing(entries[1..], ["root"]) == [];
    assert ["root"] + ["app.exe"] == ["root", "app.exe"];
  }

  /** Such a series exists, and its second version stopped at its first step leaves the first
      recorded, refused and broken. */
  lemma ExampleBreaks()
    ensures Sound(EXAMPLE)
    ensures var events := [Attempt(1, 0, Grants(), 5), Attempt(2, 1, Grants(), 1)];
      var now := History(EXAMPLE, EMPTY, events);
      && Permitted(EXAMPLE, EMPTY, events)
      && Decide(TALLIES, now.stamp, 1, false) == RefuseSameVersion(1)
      && ["root", "app.exe"] in now.files && now.files[["root", "app.exe"]] == Truncated
  {
    ExampleIsSound();
    ExampleCarries(1);
    ExampleCarries(2);
    OneFileLaid(File(["root", "app.exe"], [1]));
    StoppedUpgradeBlocksRepair(EXAMPLE, 1, 2, 0);
  }

  lemma ExampleIsSound()
    ensures Sound(EXAMPLE)
  {
    TalliesAreLawful();
    forall v: nat
      ensures Distinct(Carried(EXAMPLE, v))
    {
      ExampleCarries(v);
    }
  }
}
