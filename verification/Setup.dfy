/** Placing an installation as the wizard does (wizard.rs): the payload and the record of its
    version first, then the graphics-card payload beside the worker. */
module Setup {
  import opened Prelude
  import opened Disk
  import opened Versions
  import opened InstallSteps
  import opened StagingSteps
  import opened Histories
  import Install
  import Staging

  const PROOF := "proof"

  /** Nothing installed, or installed, with or without the graphics-card payload asked for. */
  datatype Placement = NotInstalled | Unplaced | Complete(cuda: bool)

  /** What has to be found before anything is written: a readable payload, and a root for it. */
  datatype Found = Found(payload: bool, root: bool)

  function PlaceAll<V>(s: Series<V>, v: V, found: Found, answers: Answers, r: Run, q: Request): (Run, Placement) {
    if !found.payload || !found.root then (r, NotInstalled)
    else
      var (installed, ok) := PerformInstall(answers, r, Some(s.payload(v)), s.root, s.rules.show(v));
      if !ok then (installed, NotInstalled)
      else
        var (staged, result) := Stage(answers, installed, s.root + [PROOF], q);
        (staged, if result.Err? then Unplaced else Complete(result.value))
  }

  /** `place`. */
  method PlaceInstallation<V>(m: Machine, s: Series<V>, v: V, found: Found, q: Request) returns (p: Placement)
    modifies m
    ensures (m.Now(), p) == PlaceAll(s, v, found, m.answers, old(m.Now()), q)
  {
    if !found.payload || !found.root {
      return NotInstalled;
    }
    var ok := Install.InstallPayload(m, Some(s.payload(v)), s.root, s.rules.show(v));
    if !ok {
      return NotInstalled;
    }
    var staged := Staging.StageGraphicsCardPayload(m, s.root + [PROOF], q);
    p := if staged.Err? then Unplaced else Complete(staged.value);
  }

  /** Leaving the install step, on the decision setup made when it started; whether to go on. */
  function LeaveInstallStep<V>(
      s: Series<V>, v: V, decision: Decision<V>, found: Found, answers: Answers, r: Run, q: Request): (Run, bool)
  {
    if !MayProceed(decision) then (r, true)
    else
      var (placed, p) := PlaceAll(s, v, found, answers, r, q);
      (placed, p != NotInstalled)
  }

  /** `perform_install`. */
  method PerformInstallStep<V>(m: Machine, s: Series<V>, v: V, decision: Decision<V>, found: Found, q: Request)
      returns (goOn: bool)
    modifies m
    ensures (m.Now(), goOn) == LeaveInstallStep(s, v, decision, found, m.answers, old(m.Now()), q)
  {
    if !MayProceed(decision) {
      return true;
    }
    var p := PlaceInstallation(m, s, v, found, q);
    goOn := p != NotInstalled;
  }

  /** The payload carries the processor build of the worker where staging looks for it. */
  ghost predicate CarriesWorker<V>(s: Series<V>, v: V, processor: Bytes) {
    var path := s.root + [PROOF] + [WORKER];
    path in Tree(s, v) && Tree(s, v)[path] == processor
  }

  const READY := Found(true, true)

  /** The installation placed on any machine, whatever was decided, whatever the system answers
      and wherever it is stopped: every moment before the record is written leaves the record,
      and with it every decision, as it was; from then on every decision refuses the version,
      and the worker is the processor build, put aside, or the CUDA build complete. */
  lemma EveryMoment<V(!new)>(s: Series<V>, v: V, answers: Answers, w: World, q: Request, c: Scene)
    requires Sound(s) && CarriesWorker(s, v, c.processor) && c.proof == s.root + [PROOF]
    requires q.specs != [] ==> WellFormed(q.specs, c.cuda) && c.libraries == Libraries(q.specs, 1)
    ensures var done := PlaceAll(s, v, READY, answers, StartedOn(w), q).0;
      forall i :: 0 <= i < |done.past| ==>
        if i < AllSteps(Carried(s, v)) - 1 then
          done.past[i].stamp == w.stamp
        else
          && Decide(s.rules, done.past[i].stamp, v, false) == RefuseSameVersion(v)
          && Fine(c, done.past[i])
  {
    var (installed, ok) := PerformInstall(answers, StartedOn(w), Some(s.payload(v)), s.root, s.rules.show(v));
    var done := PlaceAll(s, v, READY, answers, StartedOn(w), q).0;
    WorkerIsThere(s, v, w, c);
    InstallIsSteps(answers, StartedOn(w), Some(s.payload(v)), s.root, s.rules.show(v));
    if ok { StageIsSafe(c, answers, installed, q); }
    forall i | 0 <= i < |done.past|
      ensures if i < AllSteps(Carried(s, v)) - 1 then done.past[i].stamp == w.stamp
              else done.past[i].stamp == Some(s.rules.show(v)) && Fine(c, done.past[i])
    {
      if i < |installed.past| {
        InstallMoment(s, v, answers, w, i);
        assert done.past[i] == installed.past[i];
      } else {
        assert done.past[i] in done.past[|installed.past|..];
      }
    }
  }

  lemma InstallMoment<V>(s: Series<V>, v: V, answers: Answers, w: World, i: nat)
    requires i < |PerformInstall(answers, StartedOn(w), Some(s.payload(v)), s.root, s.rules.show(v)).0.past|
    ensures i < AllSteps(Carried(s, v))
    ensures PerformInstall(answers, StartedOn(w), Some(s.payload(v)), s.root, s.rules.show(v)).0.past[i]
         == InstallState(w, Carried(s, v), s.rules.show(v), i + 1)
  {
    InstallIsSteps(answers, StartedOn(w), Some(s.payload(v)), s.root, s.rules.show(v));
    var q := PerformInstall(answers, StartedOn(w), Some(s.payload(v)), s.root, s.rules.show(v)).0;
    InstalledFromStart(w, q, Carried(s, v), s.rules.show(v), i);
  }

  lemma InstalledFromStart(w: World, q: Run, list: seq<File>, shown: string, i: nat)
    requires Installed(StartedOn(w), q, list, shown) && i < |q.past|
    ensures i < AllSteps(list) && q.past[i] == InstallState(w, list, shown, i + 1)
  {
    assert q.past[|StartedOn(w).past| + (i + 1) - 1] == InstallState(w, list, shown, i + 1);
  }

  lemma WorkerIsThere<V(!new)>(s: Series<V>, v: V, w: World, c: Scene)
    requires CarriesWorker(s, v, c.processor) && c.proof == s.root + [PROOF]
    ensures InPlace(c, InstallState(w, Carried(s, v), s.rules.show(v), AllSteps(Carried(s, v))))
  {
    var list := Carried(s, v);
    AllCopied(w.files, list, |list|);
    assert list[..|list|] == list;
  }

  /** An installation reported without its graphics-card payload is recorded as complete, and
      every decision from then on refuses the same version. It has no worker under its name if and only if
      staging was reached and the system granted the directory and the renaming. */
  lemma UnplacedIsRecorded<V(!new)>(s: Series<V>, v: V, answers: Answers, w: World, q: Request, c: Scene)
    requires Sound(s) && CarriesWorker(s, v, c.processor) && c.proof == s.root + [PROOF]
    requires q.specs != [] ==> WellFormed(q.specs, c.cuda) && c.libraries == Libraries(q.specs, 1)
    requires PlaceAll(s, v, READY, answers, StartedOn(w), q).1 == Unplaced
    ensures var done := PlaceAll(s, v, READY, answers, StartedOn(w), q).0.world;
      var asked := PerformInstall(answers, StartedOn(w), Some(s.payload(v)), s.root, s.rules.show(v)).0.asked;
      && Decide(s.rules, done.stamp, v, false) == RefuseSameVersion(v)
      && (c.proof + [WORKER] !in done.files <==>
            Reaches(q) && answers(asked) == Works && answers(asked + 1) == Works)
      && (c.proof + [WORKER] in done.files ==> InPlace(c, done))
  {
    InstallIsSteps(answers, StartedOn(w), Some(s.payload(v)), s.root, s.rules.show(v));
    var installed := PerformInstall(answers, StartedOn(w), Some(s.payload(v)), s.root, s.rules.show(v)).0;
    WorkerIsThere(s, v, w, c);
    StageIsSafe(c, answers, installed, q);
    FailureKeepsWorkerIff(c, answers, installed, q);
  }

  /** With every request granted, that happens if and only if the graphics card is wanted, some
      artifact is present and some artifact does not verify. */
  lemma NoWorkerExactly<V(!new)>(s: Series<V>, v: V, answers: Answers, w: World, q: Request, c: Scene)
    requires Sound(s) && CarriesWorker(s, v, c.processor) && c.proof == s.root + [PROOF]
    requires q.specs != [] ==> WellFormed(q.specs, c.cuda) && c.libraries == Libraries(q.specs, 1)
    requires Granted(answers)
    ensures var (done, p) := PlaceAll(s, v, READY, answers, StartedOn(w), q);
      && Decide(s.rules, done.world.stamp, v, false) == RefuseSameVersion(v)
      && (c.proof + [WORKER] !in done.world.files <==> Reaches(q) && exists x <- q.specs :: !x.usable)
      && (c.proof + [WORKER] !in done.world.files ==> p == Unplaced)
  {
    InstallIsSteps(answers, StartedOn(w), Some(s.payload(v)), s.root, s.rules.show(v));
    var installed := PerformInstall(answers, StartedOn(w), Some(s.payload(v)), s.root, s.rules.show(v)).0;
    WorkerIsThere(s, v, w, c);
    StagingTakesWorker(c, answers, installed, q);
  }

  lemma StagingTakesWorker(c: Scene, answers: Answers, r: Run, q: Request)
    requires q.specs != [] ==> WellFormed(q.specs, c.cuda) && c.libraries == Libraries(q.specs, 1)
    requires InPlace(c, r.world) && Granted(answers)
    ensures var (done, result) := Stage(answers, r, c.proof, q);
      && (c.proof + [WORKER] !in done.world.files <==> Reaches(q) && exists x <- q.specs :: !x.usable)
      && (c.proof + [WORKER] !in done.world.files ==> result.Err?)
      && done.world.stamp == r.world.stamp
  {
    StageIsSafe(c, answers, r, q);
    FailsExactly(c, answers, r, q);
    if Stage(answers, r, c.proof, q).1.Err? {
      FailureKeepsWorkerIff(c, answers, r, q);
    }
  }

  /** Version `v` carries its worker and nothing else. */
  const WORKERS := Series(TALLIES,
    (v: nat) => [DirectoryEntry(PROOF, [FileEntry(WORKER, [v])])], ["root"])

  lemma WorkersCarry(v: nat)
    ensures Carried(WORKERS, v) == [File(["root", PROOF, WORKER], [v])]
  {
    var worker, entries := FileEntry(WORKER, [v]), [DirectoryEntry(PROOF, [FileEntry(WORKER, [v])])];
    assert WORKERS.payload(v) == entries && entries[1..] == [] && [worker][1..] == [];
    assert ["root"] + [PROOF] == ["root", PROOF] && ["root", PROOF] + [WORKER] == ["root", PROOF, WORKER];
    assert Listing([], ["root", PROOF]) == [] && Listing([], ["root"]) == [];
    assert Listing([worker], ["root", PROOF]) == [File(["root", PROOF, WORKER], [v])] + [];
    assert Listing(entries, ["root"]) == Listing([worker], ["root"] + [PROOF]) + [];
  }

  lemma WorkersCarryWorker(v: nat)
    ensures Sound(WORKERS) && CarriesWorker(WORKERS, v, [v])
  {
    forall u: nat
      ensures Distinct(Carried(WORKERS, u))
    {
      WorkersCarry(u);
    }
    TalliesAreLawful();
    WorkersCarry(v);
    OneFileLaid(File(["root", PROOF, WORKER], [v]));
    assert ["root"] + [PROOF] + [WORKER] == ["root", PROOF, WORKER];
  }

  /** An empty machine that grants everything and a library that does not verify: whatever
      version carries its worker is recorded, refused from then on, and has no worker. */
  lemma RecordedWithoutWorker<V(!new)>(s: Series<V>, v: V, processor: Bytes, cuda: Bytes, library: Bytes)
    requires Sound(s) && CarriesWorker(s, v, processor)
    ensures var q := Request(true, OneBadLibrary(cuda, library), true);
      var (done, p) := PlaceAll(s, v, READY, Grants(), StartedOn(EMPTY), q);
      && p == Unplaced
      && Decide(s.rules, done.world.stamp, v, false) == RefuseSameVersion(v)
      && s.root + [PROOF] + [WORKER] !in done.world.files
  {
    var specs := OneBadLibrary(cuda, library);
    var c := Scene(s.root + [PROOF], processor, cuda, Libraries(specs, 1));
    OneBadLibraryIsWellFormed(cuda, library);
    assert specs[0].present && specs[0] in specs && specs[1] in specs && !specs[1].usable;
    NoWorkerExactly(s, v, Grants(), EMPTY, Request(true, specs, true), c);
  }

  /** Next, Back, Next: the second time, on the decision setup started with, the version is
      recorded and refused by every new decision while its own worker is being written over. */
  lemma SecondNextBreaks<V(!new)>(s: Series<V>, v: V, w: World, q: Request, processor: Bytes) returns (i: nat)
    requires Sound(s) && CarriesWorker(s, v, processor) && w.stamp == Some(s.rules.show(v))
    ensures var done := LeaveInstallStep(s, v, Fresh, READY, Grants(), StartedOn(w), q).0;
      && i < |done.past|
      && Decide(s.rules, done.past[i].stamp, v, false) == RefuseSameVersion(v)
      && s.root + [PROOF] + [WORKER] in done.past[i].files
      && done.past[i].files[s.root + [PROOF] + [WORKER]] == Truncated
  {
    var list, path := Carried(s, v), s.root + [PROOF] + [WORKER];
    LaidAt(list, path);
    var k: nat :| k < |list| && list[k].path == path;
    i := 2 * k;
    WrittenOver(s, v, Grants(), w, k);
    PlacingGoesOn(s, v, Grants(), StartedOn(w), q);
    DecisionMeans(s.rules, w.stamp, v, false);
  }

  lemma WrittenOver<V(!new)>(s: Series<V>, v: V, answers: Answers, w: World, k: nat)
    requires Sound(s) && Granted(answers) && k < |Carried(s, v)|
    ensures var path := Carried(s, v)[k].path;
      var past := PerformInstall(answers, StartedOn(w), Some(s.payload(v)), s.root, s.rules.show(v)).0.past;
      && 2 * k < |past| && past[2 * k].stamp == w.stamp
      && path in past[2 * k].files && past[2 * k].files[path] == Truncated
  {
    WholeLength(s, v, answers, w);
    InstallMoment(s, v, answers, w, 2 * k);
    MidFile(w, Carried(s, v), s.rules.show(v), k);
  }

  lemma WholeLength<V>(s: Series<V>, v: V, answers: Answers, w: World)
    requires Granted(answers)
    ensures |PerformInstall(answers, StartedOn(w), Some(s.payload(v)), s.root, s.rules.show(v)).0.past|
         == AllSteps(Carried(s, v))
  {
    InstallIsSteps(answers, StartedOn(w), Some(s.payload(v)), s.root, s.rules.show(v));
  }

  lemma MidFile(w: World, list: seq<File>, shown: string, k: nat)
    requires Distinct(list) && k < |list|
    ensures var d := InstallState(w, list, shown, 2 * k + 1);
      d.stamp == w.stamp && list[k].path in d.files && d.files[list[k].path] == Truncated
  {
    Reached(w.files, list, 2 * k + 1, k);
  }

  lemma PlacingGoesOn<V>(s: Series<V>, v: V, answers: Answers, r: Run, q: Request)
    ensures PerformInstall(answers, r, Some(s.payload(v)), s.root, s.rules.show(v)).0.past
         <= PlaceAll(s, v, READY, answers, r, q).0.past
  {
    var (installed, ok) := PerformInstall(answers, r, Some(s.payload(v)), s.root, s.rules.show(v));
    if ok { StageGoesOn(answers, installed, s.root + [PROOF], q); }
  }

  /** If the decision forbids the install, setup goes on and nothing happens; without a payload
      or a root it stays and nothing happens; otherwise it goes on with the version recorded,
      or stays with the record as it was. */
  lemma GoesOnExactly<V(!new)>(
      s: Series<V>, v: V, decision: Decision<V>, found: Found, answers: Answers, w: World, q: Request)
    ensures var (done, goOn) := LeaveInstallStep(s, v, decision, found, answers, StartedOn(w), q);
      && (!MayProceed(decision) ==> goOn && done.world == w)
      && (MayProceed(decision) && !(found.payload && found.root) ==> !goOn && done == StartedOn(w))
      && (MayProceed(decision) && goOn ==> done.world.stamp == Some(s.rules.show(v)))
      && (!goOn ==> done.world.stamp == w.stamp)
  {
    InstallIsSteps(answers, StartedOn(w), Some(s.payload(v)), s.root, s.rules.show(v));
    var (installed, ok) := PerformInstall(answers, StartedOn(w), Some(s.payload(v)), s.root, s.rules.show(v));
    if ok { StageGoesOn(answers, installed, s.root + [PROOF], q); }
  }
}
