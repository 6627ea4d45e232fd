/** Staging the graphics-card payload beside the worker (download.rs), as a function of what
    the system answers, and what holds at every moment of it. */
module StagingSteps {
  import opened Prelude
  import opened Disk

  const WORKER := "granite-worker.exe"
  const PRESERVED := "granite-worker.cpu.exe"

  function Incoming(name: string): string { name + ".incoming" }

  /** One pinned file: its base name, if its path has one, and its verified bytes. */
  datatype InstallFile = InstallFile(name: Option<string>, bytes: Bytes)

  /** One artifact: `present` by recorded lengths, `usable` after its digests are checked. */
  datatype Spec = Spec(files: seq<InstallFile>, present: bool, usable: bool)

  // ---- the steps ----

  /** Through a temporary beside the destination; on failure the temporary is removed. */
  function Place(answers: Answers, r: Run, proof: Path, bytes: Bytes, name: string): (Run, bool) {
    var (copied, whole) := Copy(answers, r, bytes, proof + [Incoming(name)]);
    var (renamed, ok) :=
      if whole then Rename(answers, copied, proof + [Incoming(name)], proof + [name]) else (copied, false);
    if ok then (renamed, true) else (Remove(answers, renamed, proof + [Incoming(name)]).0, false)
  }

  /** Best effort: whether it worked is not asked by the caller. */
  function Preserve(answers: Answers, r: Run, proof: Path): (Run, bool) {
    if proof + [WORKER] !in r.world.files then (r, false)
    else Rename(answers, r, proof + [WORKER], proof + [PRESERVED])
  }

  function PlaceFiles(answers: Answers, r: Run, proof: Path, files: seq<InstallFile>): (Run, bool)
    decreases |files|
  {
    if files == [] then (r, true)
    else
      var (next, ok) :=
        if files[0].name.None? then (r, true)
        else Place(answers, r, proof, files[0].bytes, files[0].name.value);
      if ok then PlaceFiles(answers, next, proof, files[1..]) else (next, false)
  }

  /** `specs[..n]`, the last of them first. */
  function PlaceSpecs(answers: Answers, r: Run, proof: Path, specs: seq<Spec>, n: nat): (Run, bool)
    requires n <= |specs|
    decreases n
  {
    if n == 0 then (r, true)
    else if !specs[n - 1].usable then (r, false)
    else
      var (next, ok) := PlaceFiles(answers, r, proof, specs[n - 1].files);
      if ok then PlaceSpecs(answers, next, proof, specs, n - 1) else (next, false)
  }

  /** `wantsCuda` is the user's choice; `specs` is empty when the catalog is unreadable or
      publishes no such configuration; `located` says whether the data root was found. */
  datatype Request = Request(wantsCuda: bool, specs: seq<Spec>, located: bool)

  /** The guards before anything is touched. */
  predicate Reaches(q: Request) {
    q.wantsCuda && q.specs != [] && q.located && exists s <- q.specs :: s.present
  }

  function Stage(answers: Answers, r: Run, proof: Path, q: Request): (Run, Result<bool, ()>) {
    if !q.wantsCuda || q.specs == [] then (r, Ok(false))
    else if !q.located then (r, Err(()))
    else if !exists s <- q.specs :: s.present then (r, Ok(false))
    else if answers(r.asked) != Works then (Asked(r), Err(()))
    else
      var preserved := Preserve(answers, Asked(r), proof).0;
      var (placed, ok) := PlaceSpecs(answers, preserved, proof, q.specs, |q.specs|);
      (placed, if ok then Ok(true) else Err(()))
  }

  // ---- what may be found in the directory ----

  ghost predicate LibraryName(name: string) {
    name != WORKER && name != PRESERVED && forall x: string :: name != Incoming(x)
  }

  ghost predicate AreLibraries(files: seq<InstallFile>) {
    forall f <- files :: f.name.Some? ==> LibraryName(f.name.value)
  }

  /** The worker comes first and is one file; everything after it is libraries. */
  ghost predicate WellFormed(specs: seq<Spec>, cuda: Bytes) {
    && |specs| > 0 && specs[0].files == [InstallFile(Some(WORKER), cuda)]
    && forall i :: 1 <= i < |specs| ==> AreLibraries(specs[i].files)
  }

  function Placed(files: seq<InstallFile>): map<string, Bytes> {
    if files == [] then map[]
    else
      (if files[0].name.None? then map[] else map[files[0].name.value := files[0].bytes]) + Placed(files[1..])
  }

  /** What placing `specs[from..]`, last artifact first, leaves under each library name. */
  function Libraries(specs: seq<Spec>, from: nat): map<string, Bytes>
    requires from <= |specs|
    decreases |specs| - from
  {
    if from == |specs| then map[] else Libraries(specs, from + 1) + Placed(specs[from].files)
  }

  /** What the proof directory is about: the builds of the worker and the libraries to come. */
  datatype Scene = Scene(proof: Path, processor: Bytes, cuda: Bytes, libraries: map<string, Bytes>)

  ghost predicate Has(c: Scene, files: Files, name: string, bytes: Bytes) {
    c.proof + [name] in files && files[c.proof + [name]] == Whole(bytes)
  }

  ghost predicate Beside(c: Scene, files: Files, libraries: map<string, Bytes>) {
    forall n <- libraries :: Has(c, files, n, libraries[n])
  }

  /** The processor build is under its own name. */
  ghost predicate InPlace(c: Scene, w: World) {
    Has(c, w.files, WORKER, c.processor)
  }

  /** The processor build is under the preserved name alone. */
  ghost predicate PutAside(c: Scene, w: World) {
    c.proof + [WORKER] !in w.files && Has(c, w.files, PRESERVED, c.processor)
  }

  /** The CUDA build has taken over and every library is whole beside it. */
  ghost predicate TakenOver(c: Scene, w: World) {
    Has(c, w.files, WORKER, c.cuda) && Beside(c, w.files, c.libraries)
  }

  /** Never a worker without its libraries, never a truncated one, never none at all. */
  ghost predicate Fine(c: Scene, w: World) {
    InPlace(c, w) || PutAside(c, w) || TakenOver(c, w)
  }

  /** Everything but the files of the directory is as it was, and its moments were fine. */
  ghost predicate FineFrom(c: Scene, r: Run, q: Run) {
    && r.past <= q.past && r.asked <= q.asked
    && (forall w <- q.past[|r.past|..] :: Fine(c, w) && w.stamp == r.world.stamp)
    && q.world.stamp == r.world.stamp
  }

  lemma FineOn(c: Scene, r: Run, q: Run, p: Run)
    requires FineFrom(c, r, q) && FineFrom(c, q, p)
    ensures FineFrom(c, r, p)
  {
    assert forall w <- p.past[|r.past|..] :: w in q.past[|r.past|..] || w in p.past[|q.past|..];
  }

  // ---- names ----

  lemma IncomingIsNeither(name: string)
    ensures Incoming(name) != WORKER && Incoming(name) != PRESERVED
  {
    var n := Incoming(name);
    assert n[|n| - 1] == 'g';
    assert WORKER[|WORKER| - 1] == 'e' && PRESERVED[|PRESERVED| - 1] == 'e';
  }

  lemma OtherFile(proof: Path, a: string, b: string)
    requires a != b
    ensures proof + [a] != proof + [b]
  {
    assert (proof + [a])[|proof|] == a && (proof + [b])[|proof|] == b;
  }

  /** Files that differ at most in the one named. */
  ghost predicate SameButFor(c: Scene, a: Files, b: Files, name: string) {
    forall p :: p != c.proof + [name] ==> (p in a <==> p in b) && (p in a ==> a[p] == b[p])
  }

  /** `q` has gone on from `r` changing no file but the one named. */
  ghost predicate Touches(c: Scene, r: Run, q: Run, name: string) {
    && r.past <= q.past && r.asked <= q.asked
    && q.world.stamp == r.world.stamp && SameButFor(c, q.world.files, r.world.files, name)
    && forall w <- q.past[|r.past|..] ::
         w.stamp == r.world.stamp && SameButFor(c, w.files, r.world.files, name)
  }

  lemma TouchesOn(c: Scene, r: Run, q: Run, p: Run, name: string)
    requires Touches(c, r, q, name) && Touches(c, q, p, name)
    ensures Touches(c, r, p, name)
  {
    forall w <- p.past[|r.past|..]
      ensures w.stamp == r.world.stamp && SameButFor(c, w.files, r.world.files, name)
    {
      assert w in q.past[|r.past|..] || w in p.past[|q.past|..];
    }
  }

  lemma CopyTouches(c: Scene, answers: Answers, r: Run, bytes: Bytes, name: string)
    ensures var (q, ok) := Copy(answers, r, bytes, c.proof + [name]);
      Touches(c, r, q, name) && (ok ==> Has(c, q.world.files, name, bytes)) && (Granted(answers) ==> ok)
  {
  }

  lemma RemoveTouches(c: Scene, answers: Answers, r: Run, name: string)
    ensures Touches(c, r, Remove(answers, r, c.proof + [name]).0, name)
  {
  }

  /** The whole of a rename onto `name` is one moment. */
  ghost predicate Swapped(c: Scene, r: Run, q: Run, name: string, bytes: Bytes) {
    && Has(c, q.world.files, name, bytes)
    && forall p :: p != c.proof + [name] && p != c.proof + [Incoming(name)] ==>
         (p in q.world.files <==> p in r.world.files)
         && (p in q.world.files ==> q.world.files[p] == r.world.files[p])
  }

  /** A file is placed exactly if the copy and the rename were both granted; otherwise one more
      request asks the temporary away, and if that is granted it is gone. */
  lemma PlaceExactly(answers: Answers, r: Run, proof: Path, bytes: Bytes, name: string)
    ensures var (q, ok) := Place(answers, r, proof, bytes, name);
      var copied := answers(r.asked) == Works;
      && (ok <==> copied && answers(r.asked + 1) == Works)
      && q.asked == r.asked + (if copied && !ok then 3 else 2)
      && (!ok && answers(q.asked - 1) == Works ==> proof + [Incoming(name)] !in q.world.files)
      && (ok ==> proof + [Incoming(name)] !in q.world.files)
  {
    assert |Incoming(name)| == |name| + 9;
    var temporary, target := proof + [Incoming(name)], proof + [name];
    assert temporary[|proof|] != target[|proof|];
  }

  /** Placing a file: until the rename nothing changes but the temporary; after it the file is
      whole and nothing else has changed. It succeeds if every request is granted. */
  lemma PlaceIsAtomic(c: Scene, answers: Answers, r: Run, bytes: Bytes, name: string)
    ensures var (q, ok) := Place(answers, r, c.proof, bytes, name);
      && (Granted(answers) ==> ok)
      && (!ok ==> Touches(c, r, q, Incoming(name)))
      && (ok ==>
            && r.past < q.past && r.asked <= q.asked && q.world.stamp == r.world.stamp
            && q.past[|q.past| - 1] == q.world && Swapped(c, r, q, name, bytes)
            && forall w <- q.past[|r.past|..|q.past| - 1] ::
                 w.stamp == r.world.stamp && SameButFor(c, w.files, r.world.files, Incoming(name)))
  {
    var temporary := c.proof + [Incoming(name)];
    assert |Incoming(name)| == |name| + 9;
    OtherFile(c.proof, name, Incoming(name));
    CopyTouches(c, answers, r, bytes, Incoming(name));
    var (copied, whole) := Copy(answers, r, bytes, temporary);
    var (renamed, ok) :=
      if whole then Rename(answers, copied, temporary, c.proof + [name]) else (copied, false);
    if ok {
      assert renamed.past[|r.past|..|renamed.past| - 1] == copied.past[|r.past|..];
    } else {
      RemoveTouches(c, answers, renamed, Incoming(name));
      assert Touches(c, copied, renamed, Incoming(name));
      TouchesOn(c, r, copied, renamed, Incoming(name));
      TouchesOn(c, r, renamed, Remove(answers, renamed, temporary).0, Incoming(name));
    }
  }

  // ---- going on ----

  lemma PlaceGoesOn(answers: Answers, r: Run, proof: Path, bytes: Bytes, name: string)
    ensures r.past <= Place(answers, r, proof, bytes, name).0.past
    ensures Place(answers, r, proof, bytes, name).0.world.stamp == r.world.stamp
  {
  }

  lemma {:induction false} FilesGoOn(answers: Answers, r: Run, proof: Path, files: seq<InstallFile>)
    ensures r.past <= PlaceFiles(answers, r, proof, files).0.past
    ensures PlaceFiles(answers, r, proof, files).0.world.stamp == r.world.stamp
    decreases |files|
  {
    if files != [] {
      if files[0].name.None? {
        FilesGoOn(answers, r, proof, files[1..]);
      } else {
        PlaceGoesOn(answers, r, proof, files[0].bytes, files[0].name.value);
        FilesGoOn(answers, Place(answers, r, proof, files[0].bytes, files[0].name.value).0, proof, files[1..]);
      }
    }
  }

  lemma {:induction false} SpecsGoOn(answers: Answers, r: Run, proof: Path, specs: seq<Spec>, n: nat)
    requires n <= |specs|
    ensures r.past <= PlaceSpecs(answers, r, proof, specs, n).0.past
    ensures PlaceSpecs(answers, r, proof, specs, n).0.world.stamp == r.world.stamp
    decreases n
  {
    if n > 0 && specs[n - 1].usable {
      FilesGoOn(answers, r, proof, specs[n - 1].files);
      SpecsGoOn(answers, PlaceFiles(answers, r, proof, specs[n - 1].files).0, proof, specs, n - 1);
    }
  }

  /** Staging never takes back a moment and never touches the record. */
  lemma StageGoesOn(answers: Answers, r: Run, proof: Path, q: Request)
    ensures r.past <= Stage(answers, r, proof, q).0.past
    ensures Stage(answers, r, proof, q).0.world.stamp == r.world.stamp
  {
    if Reaches(q) && answers(r.asked) == Works {
      SpecsGoOn(answers, Preserve(answers, Asked(r), proof).0, proof, q.specs, |q.specs|);
    }
  }

  // ---- every moment ----

  /** Until the worker's own turn: the processor build is where it was, or put aside. */
  ghost predicate Underway(c: Scene, kept: bool, w: World) {
    if kept then InPlace(c, w) else PutAside(c, w)
  }

  ghost predicate AllLibraries(libraries: map<string, Bytes>) {
    forall n <- libraries :: LibraryName(n)
  }

  lemma TemporaryIsApart(c: Scene, a: Files, b: Files, name: string, libraries: map<string, Bytes>)
    requires SameButFor(c, a, b, Incoming(name)) && AllLibraries(libraries)
    ensures Has(c, a, WORKER, c.processor) <==> Has(c, b, WORKER, c.processor)
    ensures c.proof + [WORKER] in a <==> c.proof + [WORKER] in b
    ensures Has(c, a, PRESERVED, c.processor) <==> Has(c, b, PRESERVED, c.processor)
    ensures Beside(c, b, libraries) ==> Beside(c, a, libraries)
  {
    IncomingIsNeither(name);
    OtherFile(c.proof, WORKER, Incoming(name));
    OtherFile(c.proof, PRESERVED, Incoming(name));
    forall n <- libraries { OtherFile(c.proof, n, Incoming(name)); }
  }

  lemma TemporaryIsFine(c: Scene, r: Run, q: Run, name: string, kept: bool, libraries: map<string, Bytes>)
    requires Touches(c, r, q, Incoming(name)) && AllLibraries(libraries) && Underway(c, kept, r.world)
    ensures FineFrom(c, r, q) && Underway(c, kept, q.world)
    ensures Beside(c, r.world.files, libraries) ==> Beside(c, q.world.files, libraries)
  {
    TemporaryIsApart(c, q.world.files, r.world.files, name, libraries);
    forall w <- q.past[|r.past|..]
      ensures Fine(c, w)
    {
      TemporaryIsApart(c, w.files, r.world.files, name, libraries);
    }
  }

  lemma LastMomentToo(c: Scene, r: Run, q: Run, name: string, kept: bool)
    requires r.past < q.past && r.asked <= q.asked && q.past[|q.past| - 1] == q.world
    requires q.world.stamp == r.world.stamp && Fine(c, q.world) && Underway(c, kept, r.world)
    requires forall w <- q.past[|r.past|..|q.past| - 1] ::
      w.stamp == r.world.stamp && SameButFor(c, w.files, r.world.files, Incoming(name))
    ensures FineFrom(c, r, q)
  {
    forall w <- q.past[|r.past|..]
      ensures Fine(c, w) && w.stamp == r.world.stamp
    {
      if w != q.world {
        assert w in q.past[|r.past|..|q.past| - 1];
        TemporaryIsApart(c, w.files, r.world.files, name, map[]);
      }
    }
  }

  /** One library: the worker's name is not touched, libraries placed before stay whole. */
  lemma LibraryPlaced(
      c: Scene, answers: Answers, r: Run, bytes: Bytes, name: string, kept: bool, before: map<string, Bytes>)
    requires LibraryName(name) && AllLibraries(before)
    requires Underway(c, kept, r.world) && Beside(c, r.world.files, before)
    ensures var (q, ok) := Place(answers, r, c.proof, bytes, name);
      && FineFrom(c, r, q) && Underway(c, kept, q.world)
      && (ok ==> Beside(c, q.world.files, before[name := bytes]))
      && (Granted(answers) ==> ok)
  {
    PlaceIsAtomic(c, answers, r, bytes, name);
    var (q, ok) := Place(answers, r, c.proof, bytes, name);
    if ok {
      SwapIsApart(c, r, q, bytes, name, kept, before);
      LastMomentToo(c, r, q, name, kept);
    } else {
      TemporaryIsFine(c, r, q, name, kept, before);
    }
  }

  lemma SwapIsApart(c: Scene, r: Run, q: Run, bytes: Bytes, name: string, kept: bool, before: map<string, Bytes>)
    requires LibraryName(name) && AllLibraries(before) && Swapped(c, r, q, name, bytes)
    requires Underway(c, kept, r.world) && Beside(c, r.world.files, before)
    ensures Underway(c, kept, q.world) && Beside(c, q.world.files, before[name := bytes])
  {
    IncomingIsNeither(name);
    OtherFile(c.proof, WORKER, name);
    OtherFile(c.proof, WORKER, Incoming(name));
    OtherFile(c.proof, PRESERVED, name);
    OtherFile(c.proof, PRESERVED, Incoming(name));
    forall n <- before | n != name
      ensures Has(c, q.world.files, n, before[n])
    {
      OtherFile(c.proof, n, name);
      OtherFile(c.proof, n, Incoming(name));
    }
  }

  /** The worker itself: the rename that makes it the CUDA build finds every library whole. */
  lemma WorkerPlaced(c: Scene, answers: Answers, r: Run, kept: bool)
    requires AllLibraries(c.libraries) && Underway(c, kept, r.world) && Beside(c, r.world.files, c.libraries)
    ensures var (q, ok) := Place(answers, r, c.proof, c.cuda, WORKER);
      && FineFrom(c, r, q)
      && (if ok then TakenOver(c, q.world) else Underway(c, kept, q.world))
      && (Granted(answers) ==> ok)
  {
    PlaceIsAtomic(c, answers, r, c.cuda, WORKER);
    var (q, ok) := Place(answers, r, c.proof, c.cuda, WORKER);
    if ok {
      forall n <- c.libraries
        ensures Has(c, q.world.files, n, c.libraries[n])
      {
        OtherFile(c.proof, n, WORKER);
        OtherFile(c.proof, n, Incoming(WORKER));
      }
      LastMomentToo(c, r, q, WORKER, kept);
    } else {
      TemporaryIsFine(c, r, q, WORKER, kept, map[]);
    }
  }

  lemma NothingMoved(c: Scene, r: Run)
    ensures FineFrom(c, r, r)
  {
  }

  lemma {:induction false} FilesPlaced(
      c: Scene, answers: Answers, r: Run, files: seq<InstallFile>, kept: bool, before: map<string, Bytes>)
    requires AreLibraries(files) && AllLibraries(before)
    requires Underway(c, kept, r.world) && Beside(c, r.world.files, before)
    ensures var (q, ok) := PlaceFiles(answers, r, c.proof, files);
      && FineFrom(c, r, q) && Underway(c, kept, q.world)
      && (ok ==> Beside(c, q.world.files, before + Placed(files)))
      && (Granted(answers) ==> ok)
    decreases |files|
  {
    NothingMoved(c, r);
    if files != [] {
      var file, rest := files[0], files[1..];
      FirstPlaced(files, before);
      if file.name.None? {
        FilesPlaced(c, answers, r, rest, kept, before);
      } else {
        LibraryPlaced(c, answers, r, file.bytes, file.name.value, kept, before);
        var (next, ok) := Place(answers, r, c.proof, file.bytes, file.name.value);
        if ok {
          FilesPlaced(c, answers, next, rest, kept, before[file.name.value := file.bytes]);
          FineOn(c, r, next, PlaceFiles(answers, next, c.proof, rest).0);
        }
      }
    }
  }

  lemma FirstPlaced(files: seq<InstallFile>, before: map<string, Bytes>)
    requires files != [] && AreLibraries(files)
    ensures AreLibraries(files[1..])
    ensures files[0].name.None? ==> before + Placed(files) == before + Placed(files[1..])
    ensures files[0].name.Some? ==>
      && LibraryName(files[0].name.value)
      && before + Placed(files) == before[files[0].name.value := files[0].bytes] + Placed(files[1..])
  {
    assert files[0] in files && forall f <- files[1..] :: f in files;
    if files[0].name.Some? { OneMore(before, files[0].name.value, files[0].bytes, Placed(files[1..])); }
  }

  lemma OneMore(before: map<string, Bytes>, name: string, bytes: Bytes, rest: map<string, Bytes>)
    ensures before + (map[name := bytes] + rest) == before[name := bytes] + rest
  {
  }

  lemma {:induction false} PlacedAreLibraries(files: seq<InstallFile>)
    requires AreLibraries(files)
    ensures AllLibraries(Placed(files))
  {
    if files != [] {
      assert files[0] in files && forall f <- files[1..] :: f in files;
      PlacedAreLibraries(files[1..]);
    }
  }

  lemma {:induction false} LibrariesAreLibraries(specs: seq<Spec>, cuda: Bytes, i: nat)
    requires WellFormed(specs, cuda) && 1 <= i <= |specs|
    ensures AllLibraries(Libraries(specs, i))
    decreases |specs| - i
  {
    if i < |specs| {
      LibrariesAreLibraries(specs, cuda, i + 1);
      PlacedAreLibraries(specs[i].files);
    }
  }

  predicate UsableUpTo(specs: seq<Spec>, n: nat)
    requires n <= |specs|
  {
    forall i :: 0 <= i < n ==> specs[i].usable
  }

  /** The artifacts from the last to the first: fine throughout, and at the end the CUDA build
      has taken over, or the processor build is where it was before. */
  lemma {:induction false} SpecsPlaced(c: Scene, answers: Answers, r: Run, specs: seq<Spec>, n: nat, kept: bool)
    requires WellFormed(specs, c.cuda) && c.libraries == Libraries(specs, 1) && 1 <= n <= |specs|
    requires Underway(c, kept, r.world) && Beside(c, r.world.files, Libraries(specs, n))
    ensures var (q, ok) := PlaceSpecs(answers, r, c.proof, specs, n);
      && FineFrom(c, r, q)
      && (if ok then TakenOver(c, q.world) && UsableUpTo(specs, n) else Underway(c, kept, q.world))
      && (Granted(answers) ==> (ok <==> UsableUpTo(specs, n)))
    decreases n
  {
    NothingMoved(c, r);
    LibrariesAreLibraries(specs, c.cuda, n);
    if specs[n - 1].usable {
      if n == 1 {
        WorkerPlaced(c, answers, r, kept);
        OneFile(answers, r, c.proof, specs[0].files);
      } else {
        FilesPlaced(c, answers, r, specs[n - 1].files, kept, Libraries(specs, n));
        var (next, ok) := PlaceFiles(answers, r, c.proof, specs[n - 1].files);
        if ok {
          SpecsPlaced(c, answers, next, specs, n - 1, kept);
          FineOn(c, r, next, PlaceSpecs(answers, next, c.proof, specs, n - 1).0);
        }
      }
    }
  }

  lemma OneFile(answers: Answers, r: Run, proof: Path, files: seq<InstallFile>)
    requires |files| == 1 && files[0].name.Some?
    ensures PlaceFiles(answers, r, proof, files) == Place(answers, r, proof, files[0].bytes, files[0].name.value)
  {
    assert files[1..] == [];
  }

  lemma PreserveKeeps(c: Scene, answers: Answers, r: Run)
    requires InPlace(c, r.world)
    ensures var (q, done) := Preserve(answers, r, c.proof);
      FineFrom(c, r, q) && Underway(c, !done, q.world) && (done <==> answers(r.asked) == Works)
  {
    OtherFile(c.proof, WORKER, PRESERVED);
  }

  /** `stage_graphics_card_payload`, stopped anywhere or failing anywhere: at every moment the
      worker is the processor build under its own name, or put aside whole, or the CUDA build
      with every library whole; the record of the version is never touched; success means
      the CUDA build has taken over, and no guard passed means nothing has happened. */
  lemma StageIsSafe(c: Scene, answers: Answers, r: Run, q: Request)
    requires q.specs != [] ==> WellFormed(q.specs, c.cuda) && c.libraries == Libraries(q.specs, 1)
    requires InPlace(c, r.world)
    ensures var (done, result) := Stage(answers, r, c.proof, q);
      && FineFrom(c, r, done)
      && (result == Ok(true) ==>
            Reaches(q) && TakenOver(c, done.world) && forall s <- q.specs :: s.usable)
      && (result == Ok(false) ==> !Reaches(q) && done == r)
      && (result.Err? ==> q.wantsCuda && q.specs != [] && (q.located ==> Reaches(q)))
  {
    NothingMoved(c, r);
    StageOutcome(c, answers, r, q);
  }

  /** What each way out of staging leaves: the preservation is its second request. */
  lemma StageOutcome(c: Scene, answers: Answers, r: Run, q: Request)
    requires q.specs != [] ==> WellFormed(q.specs, c.cuda) && c.libraries == Libraries(q.specs, 1)
    requires InPlace(c, r.world)
    ensures var (done, result) := Stage(answers, r, c.proof, q);
      Reaches(q) && answers(r.asked) == Works ==>
        && FineFrom(c, r, done)
        && (if result.Ok? then
              result.value && TakenOver(c, done.world) && UsableUpTo(q.specs, |q.specs|)
            else
              Underway(c, answers(r.asked + 1) != Works, done.world))
        && (Granted(answers) ==> (result.Ok? <==> UsableUpTo(q.specs, |q.specs|)))
  {
    if Reaches(q) && answers(r.asked) == Works {
      PreserveKeeps(c, answers, Asked(r));
      var (preserved, aside) := Preserve(answers, Asked(r), c.proof);
      SpecsPlaced(c, answers, preserved, q.specs, |q.specs|, !aside);
      FineOn(c, Asked(r), preserved, PlaceSpecs(answers, preserved, c.proof, q.specs, |q.specs|).0);
    }
  }

  // ---- when a failure keeps the worker ----

  /** A failure leaves the processor worker under its own name if and only if staging was not
      reached or the system refused the directory or the renaming; what it does not leave
      there, it leaves whole under the preserved name, and no worker under its own. */
  lemma FailureKeepsWorkerIff(c: Scene, answers: Answers, r: Run, q: Request)
    requires q.specs != [] ==> WellFormed(q.specs, c.cuda) && c.libraries == Libraries(q.specs, 1)
    requires InPlace(c, r.world)
    requires Stage(answers, r, c.proof, q).1.Err?
    ensures var w := Stage(answers, r, c.proof, q).0.world;
      && (InPlace(c, w) <==> !(Reaches(q) && answers(r.asked) == Works && answers(r.asked + 1) == Works))
      && (!InPlace(c, w) ==> PutAside(c, w))
  {
    StageOutcome(c, answers, r, q);
  }

  /** With every request granted, staging fails if and only if it is wanted, published and not
      located, or reached and some artifact is not usable; and every failure that is reached
      takes the worker away from its name. */
  lemma FailsExactly(c: Scene, answers: Answers, r: Run, q: Request)
    requires q.specs != [] ==> WellFormed(q.specs, c.cuda) && c.libraries == Libraries(q.specs, 1)
    requires InPlace(c, r.world) && Granted(answers)
    ensures var (done, result) := Stage(answers, r, c.proof, q);
      && (result.Err? <==>
            || (q.wantsCuda && q.specs != [] && !q.located)
            || (Reaches(q) && exists s <- q.specs :: !s.usable))
      && ((result.Err? ==> InPlace(c, done.world)) <==> !(Reaches(q) && exists s <- q.specs :: !s.usable))
  {
    StageOutcome(c, answers, r, q);
    if exists s <- q.specs :: !s.usable {
      var s :| s in q.specs && !s.usable;
      var i: nat :| i < |q.specs| && q.specs[i] == s;
      assert !UsableUpTo(q.specs, |q.specs|);
    }
    assert UsableUpTo(q.specs, |q.specs|) <==> forall s <- q.specs :: s.usable;
  }

  /** A worker that verified and a library that did not. */
  function OneBadLibrary(cuda: Bytes, library: Bytes): seq<Spec> {
    [Spec([InstallFile(Some(WORKER), cuda)], true, true),
     Spec([InstallFile(Some("cublas64_12.dll"), library)], true, false)]
  }

  lemma OneBadLibraryIsWellFormed(cuda: Bytes, library: Bytes)
    ensures WellFormed(OneBadLibrary(cuda, library), cuda)
  {
    var name := "cublas64_12.dll";
    forall x: string
      ensures name != Incoming(x)
    {
      assert name[|name| - 1] == 'l' && Incoming(x)[|Incoming(x)| - 1] == 'g';
    }
    assert name[0] == 'c' && WORKER[0] == 'g' && PRESERVED[0] == 'g';
  }

  /** With those two and a system that grants everything, staging fails and no worker is left
      under its name. */
  lemma FailureLosesTheName(proof: Path, processor: Bytes, cuda: Bytes, library: Bytes)
    ensures var w := World(map[proof + [WORKER] := Whole(processor)], None, true, true);
      var q := Request(true, OneBadLibrary(cuda, library), true);
      var (done, result) := Stage((n: nat) => Works, StartedOn(w), proof, q);
      && WellFormed(q.specs, cuda)
      && result.Err? && proof + [WORKER] !in done.world.files
      && done.world.files == map[proof + [PRESERVED] := Whole(processor)]
  {
    OtherFile(proof, WORKER, PRESERVED);
    OneBadLibraryIsWellFormed(cuda, library);
    var specs := OneBadLibrary(cuda, library);
    assert specs[0] in specs && specs[0].present;
  }
}
