/** Install and uninstall as functions of what the system answers (install.rs, uninstall.rs),
    and the world after any number of their steps in closed form. */
module InstallSteps {
  import opened Prelude
  import opened Disk

  /** The payload as directories list it. */
  datatype Entry = FileEntry(name: string, bytes: Bytes) | DirectoryEntry(name: string, children: seq<Entry>)

  datatype File = File(path: Path, bytes: Bytes)

  /** Every file of a tree placed under `at`, in copying order. */
  function Listing(entries: seq<Entry>, at: Path): seq<File>
    decreases entries
  {
    if entries == [] then []
    else
      (match entries[0]
       case FileEntry(name, bytes) => [File(at + [name], bytes)]
       case DirectoryEntry(name, children) => Listing(children, at + [name]))
      + Listing(entries[1..], at)
  }

  function Laid(list: seq<File>): map<Path, Bytes> {
    if list == [] then map[]
    else
      var last := list[|list| - 1];
      Laid(list[..|list| - 1])[last.path := last.bytes]
  }

  // ---- install ----

  function CopyTree(answers: Answers, r: Run, entries: seq<Entry>, at: Path): (Run, bool)
    decreases entries, 1
  {
    if answers(r.asked) != Works then (Asked(r), false)
    else CopyEntries(answers, Asked(r), entries, at)
  }

  function CopyEntries(answers: Answers, r: Run, entries: seq<Entry>, at: Path): (Run, bool)
    decreases entries, 0
  {
    if entries == [] then (r, true)
    else
      var (next, ok) :=
        match entries[0]
        case FileEntry(name, bytes) => Copy(answers, r, bytes, at + [name])
        case DirectoryEntry(name, children) => CopyTree(answers, r, children, at + [name]);
      if ok then CopyEntries(answers, next, entries[1..], at) else (next, false)
  }

  /** `perform`: files, programs entry, shortcut, and the stamp last. */
  function PerformInstall(answers: Answers, r: Run, payload: Option<seq<Entry>>, root: Path, shown: string)
      : (Run, bool)
  {
    if payload.None? then (r, false)
    else
      var (copied, ok) := CopyTree(answers, r, payload.value, root);
      if ok then Register(answers, copied, shown) else (copied, false)
  }

  function Register(answers: Answers, r: Run, shown: string): (Run, bool) {
    if answers(r.asked) != Works then (Asked(r), false)
    else
      var registered := Moved(Asked(r), r.world.(registered := true));
      if answers(registered.asked) != Works then (Asked(registered), false)
      else
        var linked := Moved(Asked(registered), registered.world.(shortcut := true));
        if answers(linked.asked) != Works then (Asked(linked), false)
        else (Moved(Asked(linked), linked.world.(stamp := Some(shown))), true)
  }

  /** The files after `n` steps of copying a list: two steps a file, truncated and then whole. */
  function AfterSteps(files: Files, list: seq<File>, n: nat): Files
    requires n <= 2 * |list|
  {
    if n == 0 then files
    else
      var file := list[(n - 1) / 2];
      AfterSteps(files, list, n - 1)[file.path := if n % 2 == 1 then Truncated else Whole(file.bytes)]
  }

  function AllSteps(list: seq<File>): nat { 2 * |list| + 3 }

  /** The world after `n` steps of installing a list. */
  function InstallState(w: World, list: seq<File>, shown: string, n: nat): World
    requires n <= AllSteps(list)
  {
    var copied := Min(n, 2 * |list|);
    World(
      AfterSteps(w.files, list, copied),
      if n >= 2 * |list| + 3 then Some(shown) else w.stamp,
      w.registered || n >= 2 * |list| + 1,
      w.shortcut || n >= 2 * |list| + 2)
  }

  lemma {:induction false} StepsOfFirst(files: Files, a: seq<File>, b: seq<File>, n: nat)
    requires n <= 2 * |a|
    ensures AfterSteps(files, a + b, n) == AfterSteps(files, a, n)
  {
    if n > 0 { StepsOfFirst(files, a, b, n - 1); }
  }

  lemma {:induction false} StepsOfSecond(files: Files, a: seq<File>, b: seq<File>, n: nat)
    requires n <= 2 * |b|
    ensures AfterSteps(files, a + b, 2 * |a| + n) == AfterSteps(AfterSteps(files, a, 2 * |a|), b, n)
  {
    if n > 0 {
      StepsOfSecond(files, a, b, n - 1);
      assert (a + b)[(2 * |a| + n - 1) / 2] == b[(n - 1) / 2];
    } else {
      StepsOfFirst(files, a, b, 2 * |a|);
    }
  }

  /** Step `i` of copying `list` led from `r` to the world `q` went through then. */
  ghost predicate StepCopied(r: Run, q: Run, list: seq<File>, i: nat) {
    && i <= 2 * |list| && 0 < i <= |q.past| - |r.past|
    && q.past[|r.past| + i - 1] == r.world.(files := AfterSteps(r.world.files, list, i))
  }

  /** `q` has gone on from `r` by the first so many steps of copying `list`. */
  ghost predicate Copied(r: Run, q: Run, list: seq<File>) {
    && r.past <= q.past && |q.past| - |r.past| <= 2 * |list|
    && q.world == r.world.(files := AfterSteps(r.world.files, list, |q.past| - |r.past|))
    && forall i :: 0 < i <= |q.past| - |r.past| ==> StepCopied(r, q, list, i)
  }

  lemma OneFileCopied(answers: Answers, r: Run, file: File)
    ensures var (q, ok) := Copy(answers, r, file.bytes, file.path);
      Copied(r, q, [file]) && (ok ==> |q.past| == |r.past| + 2) && (Granted(answers) ==> ok)
  {
    var files := r.world.files;
    assert AfterSteps(files, [file], 1) == files[file.path := Truncated];
    assert AfterSteps(files, [file], 2) == files[file.path := Whole(file.bytes)];
  }

  lemma CopiedStill(r: Run, q: Run, a: seq<File>, b: seq<File>)
    requires Copied(r, q, a)
    ensures Copied(r, q, a + b)
  {
    StepsOfFirst(r.world.files, a, b, |q.past| - |r.past|);
    forall i | 0 < i <= |q.past| - |r.past|
      ensures StepCopied(r, q, a + b, i)
    {
      assert StepCopied(r, q, a, i);
      StepsOfFirst(r.world.files, a, b, i);
    }
  }

  lemma StepOfFirst(r: Run, q: Run, p: Run, a: seq<File>, b: seq<File>, i: nat)
    requires StepCopied(r, q, a, i) && q.past <= p.past
    ensures StepCopied(r, p, a + b, i)
  {
    StepsOfFirst(r.world.files, a, b, i);
  }

  lemma StepOfSecond(r: Run, q: Run, p: Run, a: seq<File>, b: seq<File>, i: nat)
    requires |q.past| == |r.past| + 2 * |a| && StepCopied(q, p, b, i)
    requires q.world == r.world.(files := AfterSteps(r.world.files, a, 2 * |a|))
    ensures StepCopied(r, p, a + b, 2 * |a| + i)
  {
    StepsOfSecond(r.world.files, a, b, i);
    assert p.past[|r.past| + (2 * |a| + i) - 1] == p.past[|q.past| + i - 1];
  }

  lemma EndOfSecond(r: Run, q: Run, p: Run, a: seq<File>, b: seq<File>)
    requires |q.past| == |r.past| + 2 * |a| && |q.past| <= |p.past| <= |q.past| + 2 * |b|
    requires q.world == r.world.(files := AfterSteps(r.world.files, a, 2 * |a|))
    requires p.world == q.world.(files := AfterSteps(q.world.files, b, |p.past| - |q.past|))
    ensures |p.past| - |r.past| <= 2 * |a + b|
    ensures p.world == r.world.(files := AfterSteps(r.world.files, a + b, |p.past| - |r.past|))
  {
    StepsOfSecond(r.world.files, a, b, |p.past| - |q.past|);
  }

  lemma CopiedOn(r: Run, q: Run, p: Run, a: seq<File>, b: seq<File>)
    requires Copied(r, q, a) && |q.past| == |r.past| + 2 * |a| && Copied(q, p, b)
    ensures Copied(r, p, a + b)
  {
    EndOfSecond(r, q, p, a, b);
    forall i | 0 < i <= |p.past| - |r.past|
      ensures StepCopied(r, p, a + b, i)
    {
      if i <= 2 * |a| {
        StepOfFirst(r, q, p, a, b, i);
      } else {
        StepOfSecond(r, q, p, a, b, i - 2 * |a|);
      }
    }
  }

  lemma NothingCopied(r: Run, q: Run, list: seq<File>)
    requires q.past == r.past && q.world == r.world
    ensures Copied(r, q, list)
  {
  }

  lemma CopiedAsWell(r: Run, asked: Run, q: Run, list: seq<File>)
    requires asked.past == r.past && asked.world == r.world && Copied(asked, q, list)
    ensures Copied(r, q, list)
  {
    forall i | 0 < i <= |q.past| - |r.past|
      ensures StepCopied(r, q, list, i)
    {
      assert StepCopied(asked, q, list, i);
    }
  }

  /** Whatever the system answers, a copy goes through the first so many of its steps and no
      others, all of them if it succeeds; and it succeeds if every request is granted. */
  lemma {:induction false} CopyingIsSteps(answers: Answers, r: Run, entries: seq<Entry>, at: Path)
    ensures var (q, ok) := CopyEntries(answers, r, entries, at);
      && Copied(r, q, Listing(entries, at))
      && (ok ==> |q.past| == |r.past| + 2 * |Listing(entries, at)|)
      && (Granted(answers) ==> ok)
    decreases entries, 0
  {
    if entries == [] {
      NothingCopied(r, r, []);
    } else {
      var first, rest := Listing(entries[..1], at), Listing(entries[1..], at);
      assert entries[..1][1..] == [];
      var (next, ok) :=
        match entries[0]
        case FileEntry(name, bytes) => Copy(answers, r, bytes, at + [name])
        case DirectoryEntry(name, children) => CopyTree(answers, r, children, at + [name]);
      FirstEntryIsSteps(answers, r, entries, at);
      if ok {
        CopyingIsSteps(answers, next, entries[1..], at);
        var q := CopyEntries(answers, next, entries[1..], at).0;
        CopiedOn(r, next, q, first, rest);
      } else {
        CopiedStill(r, next, first, rest);
      }
    }
  }

  lemma {:induction false} FirstEntryIsSteps(answers: Answers, r: Run, entries: seq<Entry>, at: Path)
    requires entries != []
    ensures var first := Listing(entries[..1], at);
      var (next, ok) :=
        match entries[0]
        case FileEntry(name, bytes) => Copy(answers, r, bytes, at + [name])
        case DirectoryEntry(name, children) => CopyTree(answers, r, children, at + [name]);
      && Listing(entries, at) == first + Listing(entries[1..], at)
      && Copied(r, next, first)
      && (ok ==> |next.past| == |r.past| + 2 * |first|)
      && (Granted(answers) ==> ok)
    decreases entries, 0, 0
  {
    assert entries[..1][1..] == [] && entries[..1][0] == entries[0];
    match entries[0]
    case FileEntry(name, bytes) =>
      OneFileCopied(answers, r, File(at + [name], bytes));
      assert Listing(entries[..1], at) == [File(at + [name], bytes)];
    case DirectoryEntry(name, children) =>
      TreeIsSteps(answers, r, children, at + [name]);
      assert Listing(entries[..1], at) == Listing(children, at + [name]);
  }

  lemma {:induction false} TreeIsSteps(answers: Answers, r: Run, entries: seq<Entry>, at: Path)
    ensures var (q, ok) := CopyTree(answers, r, entries, at);
      && Copied(r, q, Listing(entries, at))
      && (ok ==> |q.past| == |r.past| + 2 * |Listing(entries, at)|)
      && (Granted(answers) ==> ok)
    decreases entries, 1
  {
    if answers(r.asked) == Works {
      CopyingIsSteps(answers, Asked(r), entries, at);
      CopiedAsWell(r, Asked(r), CopyEntries(answers, Asked(r), entries, at).0, Listing(entries, at));
    } else {
      NothingCopied(r, Asked(r), Listing(entries, at));
    }
  }

  /** `q` has gone on from `r` by the first so many steps of installing `list`. */
  ghost predicate Installed(r: Run, q: Run, list: seq<File>, shown: string) {
    && r.past <= q.past && |q.past| - |r.past| <= AllSteps(list)
    && q.world == InstallState(r.world, list, shown, |q.past| - |r.past|)
    && forall i :: 0 < i <= |q.past| - |r.past| ==>
         q.past[|r.past| + i - 1] == InstallState(r.world, list, shown, i)
  }

  /** Whatever the system answers, an install goes through the first so many of its steps and
      no others, all of them exactly if it succeeds; and it succeeds if every request is granted. */
  lemma InstallIsSteps(answers: Answers, r: Run, payload: Option<seq<Entry>>, root: Path, shown: string)
    ensures var (q, ok) := PerformInstall(answers, r, payload, root, shown);
      var list := if payload.Some? then Listing(payload.value, root) else [];
      && Installed(r, q, list, shown)
      && (ok <==> |q.past| - |r.past| == AllSteps(list))
      && (payload.Some? && Granted(answers) ==> ok)
      && (payload.None? ==> !ok && q == r)
  {
    if payload.Some? {
      var list := Listing(payload.value, root);
      TreeIsSteps(answers, r, payload.value, root);
      var (copied, ok) := CopyTree(answers, r, payload.value, root);
      CopyIsInstall(r, copied, list, shown);
      if ok { Registering(answers, r, copied, list, shown); }
    }
  }

  lemma CopyIsInstall(r: Run, q: Run, list: seq<File>, shown: string)
    requires Copied(r, q, list)
    ensures Installed(r, q, list, shown)
  {
    forall i | 0 < i <= |q.past| - |r.past|
      ensures q.past[|r.past| + i - 1] == InstallState(r.world, list, shown, i)
    {
      assert StepCopied(r, q, list, i);
    }
  }

  lemma Registering(answers: Answers, r: Run, copied: Run, list: seq<File>, shown: string)
    requires Copied(r, copied, list) && |copied.past| == |r.past| + 2 * |list|
    ensures var (q, ok) := Register(answers, copied, shown);
      && Installed(r, q, list, shown)
      && (ok <==> |q.past| - |r.past| == AllSteps(list))
      && (Granted(answers) ==> ok)
  {
    var q := Register(answers, copied, shown).0;
    forall i | 0 < i <= |q.past| - |r.past|
      ensures q.past[|r.past| + i - 1] == InstallState(r.world, list, shown, i)
    {
      if i <= 2 * |list| {
        assert StepCopied(r, copied, list, i);
        assert q.past[|r.past| + i - 1] == copied.past[|r.past| + i - 1];
      }
    }
  }

  // ---- what a list leaves where ----

  /** No directory lists a name twice. */
  ghost predicate Distinct(list: seq<File>) {
    forall i, j :: 0 <= i < j < |list| ==> list[i].path != list[j].path
  }

  /** A file not on the list, or not reached yet, is as it was. */
  lemma {:induction false} NotReached(files: Files, list: seq<File>, n: nat, p: Path)
    requires n <= 2 * |list|
    requires forall k :: 0 <= k < |list| && 2 * k < n ==> list[k].path != p
    ensures var after := AfterSteps(files, list, n); p in after <==> p in files
    ensures var after := AfterSteps(files, list, n); p in after ==> after[p] == files[p]
  {
    if n > 0 {
      assert list[(n - 1) / 2].path != p;
      NotReached(files, list, n - 1, p);
    }
  }

  /** A file on the list is truncated after its first step and whole after its second. */
  lemma {:induction false} Reached(files: Files, list: seq<File>, n: nat, k: nat)
    requires Distinct(list) && n <= 2 * |list| && k < |list| && 2 * k < n
    ensures var after := AfterSteps(files, list, n);
      && list[k].path in after
      && after[list[k].path] == if n == 2 * k + 1 then Truncated else Whole(list[k].bytes)
  {
    if n > 2 * k + 2 {
      assert list[(n - 1) / 2].path != list[k].path;
      Reached(files, list, n - 1, k);
    }
  }

  /** The first `n` steps of copying `list` leave the files of `tree` alone: none is being
      written, and those written have the bytes they had. */
  ghost predicate Spares(tree: map<Path, Bytes>, list: seq<File>, n: nat) {
    forall k :: 0 <= k < |list| && 2 * k < n && list[k].path in tree ==>
      n >= 2 * k + 2 && list[k].bytes == tree[list[k].path]
  }

  /** A tree that is whole is still whole after `n` steps of copying a list over it if and
      only if those steps spare it. */
  lemma WholeIfSpared(files: Files, tree: map<Path, Bytes>, list: seq<File>, n: nat)
    requires Distinct(list) && n <= 2 * |list| && AllWhole(files, tree)
    ensures AllWhole(AfterSteps(files, list, n), tree) <==> Spares(tree, list, n)
  {
    var after := AfterSteps(files, list, n);
    forall k | 0 <= k < |list| && 2 * k < n && list[k].path in tree
      ensures list[k].path in after
      ensures after[list[k].path] == Whole(tree[list[k].path]) <==>
        n >= 2 * k + 2 && list[k].bytes == tree[list[k].path]
    {
      Reached(files, list, n, k);
    }
    if Spares(tree, list, n) {
      forall p <- tree
        ensures p in after && after[p] == Whole(tree[p])
      {
        if k: nat :| k < |list| && 2 * k < n && list[k].path == p {
        } else {
          NotReached(files, list, n, p);
        }
      }
    }
  }

  lemma {:induction false} LaidAt(list: seq<File>, p: Path)
    requires Distinct(list)
    ensures p in Laid(list) <==> exists k :: 0 <= k < |list| && list[k].path == p
    ensures forall k :: 0 <= k < |list| && list[k].path == p ==> Laid(list)[p] == list[k].bytes
  {
    if list != [] {
      var init := list[..|list| - 1];
      LaidAt(init, p);
      assert forall k :: 0 <= k < |init| ==> list[k] == init[k];
    }
  }

  lemma OneFileLaid(file: File)
    ensures Laid([file]) == map[file.path := file.bytes]
  {
    assert [file][..0] == [];
    assert Laid([]) == map[];
  }

  /** Copied to the end, every file of the list is whole. */
  lemma {:induction false} AllCopied(files: Files, list: seq<File>, n: nat)
    requires n <= |list|
    ensures AllWhole(AfterSteps(files, list, 2 * n), Laid(list[..n]))
  {
    if n > 0 {
      AllCopied(files, list, n - 1);
      assert list[..n][..n - 1] == list[..n - 1];
      assert AfterSteps(files, list, 2 * n - 1)
        == AfterSteps(files, list, 2 * (n - 1))[list[n - 1].path := Truncated];
    }
  }

  // ---- uninstall ----

  /** What an uninstall reports. */
  datatype Outcome = Outcome(removed: seq<string>, failed: seq<string>)

  const VERSION_RECORD := "version record"
  const PROGRAMS_ENTRY := "Add/Remove Programs entry"
  const SHORTCUTS := "Start Menu shortcuts"
  const PROGRAM_FILES := "program files"
  const USER_DATA := "user data"

  function Reported(o: Outcome, item: string, there: bool, granted: bool): Outcome {
    if !granted then o.(failed := o.failed + [item])
    else if there then o.(removed := o.removed + [item])
    else o
  }

  /** The version record first, then the programs entry; one already missing is no failure. */
  function ClearRegistration(answers: Answers, r: Run, o: Outcome): (Run, Outcome) {
    var gone := answers(r.asked) == Works;
    var cleared := Moved(Asked(r), if gone then r.world.(stamp := None) else r.world);
    var forgotten := answers(cleared.asked) == Works;
    var done := Moved(Asked(cleared), if forgotten then cleared.world.(registered := false) else cleared.world);
    (done,
     Reported(Reported(o, VERSION_RECORD, r.world.stamp.Some?, gone), PROGRAMS_ENTRY, r.world.registered, forgotten))
  }

  function RemoveShortcut(answers: Answers, r: Run, o: Outcome): (Run, Outcome) {
    var gone := answers(r.asked) == Works;
    (Moved(Asked(r), if gone then r.world.(shortcut := false) else r.world),
     Reported(o, SHORTCUTS, r.world.shortcut, gone || !r.world.shortcut))
  }

  /** A file that will not go does not stop the rest. */
  function RemoveFiles(answers: Answers, r: Run, paths: seq<Path>, item: string, o: Outcome): (Run, Outcome) {
    if paths == [] then (r, o)
    else
      var path := paths[|paths| - 1];
      var (before, p) := RemoveFiles(answers, r, paths[..|paths| - 1], item, o);
      var (done, gone) := Remove(answers, before, path);
      (done, Reported(p, item, gone, gone || path !in before.world.files))
  }

  function PerformUninstall(answers: Answers, r: Run, program: seq<Path>, data: seq<Path>): (Run, Outcome) {
    var (cleared, o) := ClearRegistration(answers, r, Outcome([], []));
    var (unlinked, p) := RemoveShortcut(answers, cleared, o);
    var (emptied, q) := RemoveFiles(answers, unlinked, program, PROGRAM_FILES, p);
    RemoveFiles(answers, emptied, data, USER_DATA, q)
  }

  /** The files left after the first `n` of `paths` were asked for, from request `first` on. */
  function Remaining(answers: Answers, first: nat, files: Files, paths: seq<Path>, n: nat): Files
    requires n <= |paths|
  {
    if n == 0 then files
    else
      var before := Remaining(answers, first, files, paths, n - 1);
      if answers(first + n - 1) == Works then before - {paths[n - 1]} else before
  }

  const UNINSTALL_HEAD: nat := 3

  /** The world after `n` requests of an uninstall. */
  function UninstallState(answers: Answers, w: World, paths: seq<Path>, n: nat): World
    requires n <= UNINSTALL_HEAD + |paths|
  {
    World(
      Remaining(answers, UNINSTALL_HEAD, w.files, paths, if n <= UNINSTALL_HEAD then 0 else n - UNINSTALL_HEAD),
      if n >= 1 && answers(0) == Works then None else w.stamp,
      w.registered && !(n >= 2 && answers(1) == Works),
      w.shortcut && !(n >= 3 && answers(2) == Works))
  }

  lemma {:induction false} RemainingOfFirst(
      answers: Answers, first: nat, files: Files, a: seq<Path>, b: seq<Path>, n: nat)
    requires n <= |a|
    ensures Remaining(answers, first, files, a + b, n) == Remaining(answers, first, files, a, n)
  {
    if n > 0 { RemainingOfFirst(answers, first, files, a, b, n - 1); }
  }

  lemma {:induction false} RemainingOfSecond(
      answers: Answers, first: nat, files: Files, a: seq<Path>, b: seq<Path>, n: nat)
    requires n <= |b|
    ensures Remaining(answers, first, files, a + b, |a| + n)
         == Remaining(answers, first + |a|, Remaining(answers, first, files, a, |a|), b, n)
  {
    if n > 0 {
      RemainingOfSecond(answers, first, files, a, b, n - 1);
    } else {
      RemainingOfFirst(answers, first, files, a, b, |a|);
    }
  }

  /** `q` has gone on from `r` by asking for every path once. */
  ghost predicate Removed(answers: Answers, r: Run, q: Run, paths: seq<Path>) {
    && r.past <= q.past && |q.past| == |r.past| + |paths| && q.asked == r.asked + |paths|
    && q.world == r.world.(files := Remaining(answers, r.asked, r.world.files, paths, |paths|))
    && forall i :: 0 < i <= |paths| ==>
         q.past[|r.past| + i - 1] == r.world.(files := Remaining(answers, r.asked, r.world.files, paths, i))
  }

  lemma OneRemoved(answers: Answers, r: Run, path: Path)
    ensures Removed(answers, r, Remove(answers, r, path).0, [path])
  {
    var files := r.world.files;
    assert Remaining(answers, r.asked, files, [path], 1) == if answers(r.asked) == Works then files - {path} else files;
    assert path !in files ==> files - {path} == files;
  }

  lemma {:induction false} RemovingIsSteps(answers: Answers, r: Run, paths: seq<Path>, item: string, o: Outcome)
    ensures Removed(answers, r, RemoveFiles(answers, r, paths, item, o).0, paths)
  {
    if paths != [] {
      var init, path := paths[..|paths| - 1], paths[|paths| - 1];
      var before := RemoveFiles(answers, r, init, item, o).0;
      RemovingIsSteps(answers, r, init, item, o);
      OneRemoved(answers, before, path);
      RemovedOn(answers, r, before, Remove(answers, before, path).0, init, [path]);
      assert init + [path] == paths;
    }
  }

  lemma RemovedOn(answers: Answers, r: Run, q: Run, p: Run, a: seq<Path>, b: seq<Path>)
    requires Removed(answers, r, q, a) && Removed(answers, q, p, b)
    ensures Removed(answers, r, p, a + b)
  {
    var files := r.world.files;
    forall i | 0 <= i <= |a|
      ensures Remaining(answers, r.asked, files, a + b, i) == Remaining(answers, r.asked, files, a, i)
    {
      RemainingOfFirst(answers, r.asked, files, a, b, i);
    }
    forall i | 0 <= i <= |b|
      ensures Remaining(answers, r.asked, files, a + b, |a| + i)
           == Remaining(answers, q.asked, q.world.files, b, i)
    {
      RemainingOfSecond(answers, r.asked, files, a, b, i);
    }
    forall i | 0 < i <= |a + b|
      ensures p.past[|r.past| + i - 1] == r.world.(files := Remaining(answers, r.asked, files, a + b, i))
    {
      if i <= |a| {
        assert p.past[|r.past| + i - 1] == q.past[|r.past| + i - 1];
      } else {
        assert p.past[|q.past| + (i - |a|) - 1]
          == q.world.(files := Remaining(answers, q.asked, q.world.files, b, i - |a|));
      }
    }
  }

  /** An uninstall makes one request after another to the end, whatever the answers. */
  lemma UninstallIsSteps(answers: Answers, w: World, program: seq<Path>, data: seq<Path>)
    ensures var q := PerformUninstall(answers, StartedOn(w), program, data).0;
      var paths := program + data;
      && |q.past| == UNINSTALL_HEAD + |paths|
      && q.world == UninstallState(answers, w, paths, |q.past|)
      && forall i :: 0 < i <= |q.past| ==> q.past[i - 1] == UninstallState(answers, w, paths, i)
  {
    var (cleared, o) := ClearRegistration(answers, StartedOn(w), Outcome([], []));
    var (unlinked, p) := RemoveShortcut(answers, cleared, o);
    var (emptied, e) := RemoveFiles(answers, unlinked, program, PROGRAM_FILES, p);
    var q := PerformUninstall(answers, StartedOn(w), program, data).0;
    RemovingIsSteps(answers, unlinked, program, PROGRAM_FILES, p);
    RemovingIsSteps(answers, emptied, data, USER_DATA, e);
    RemovedOn(answers, unlinked, emptied, q, program, data);
    HeadOfUninstall(answers, w, program + data);
    RestOfUninstall(answers, w, unlinked, q, program + data);
  }

  lemma RestOfUninstall(answers: Answers, w: World, head: Run, q: Run, paths: seq<Path>)
    requires |head.past| == head.asked == UNINSTALL_HEAD && head.world.files == w.files
    requires head.past[0] == UninstallState(answers, w, paths, 1)
    requires head.past[1] == UninstallState(answers, w, paths, 2)
    requires head.past[2] == head.world == UninstallState(answers, w, paths, 3)
    requires Removed(answers, head, q, paths)
    ensures q.world == UninstallState(answers, w, paths, |q.past|)
    ensures forall i :: 0 < i <= |q.past| ==> q.past[i - 1] == UninstallState(answers, w, paths, i)
  {
    forall i | 0 < i <= |q.past|
      ensures q.past[i - 1] == UninstallState(answers, w, paths, i)
    {
      if i <= UNINSTALL_HEAD {
        assert q.past[i - 1] == head.past[i - 1];
      } else {
        assert q.past[UNINSTALL_HEAD + (i - UNINSTALL_HEAD) - 1] == head.world.(files :=
          Remaining(answers, UNINSTALL_HEAD, w.files, paths, i - UNINSTALL_HEAD));
      }
    }
  }

  lemma HeadOfUninstall(answers: Answers, w: World, paths: seq<Path>)
    ensures var (cleared, o) := ClearRegistration(answers, StartedOn(w), Outcome([], []));
      var q := RemoveShortcut(answers, cleared, o).0;
      && |q.past| == q.asked == UNINSTALL_HEAD && q.world.files == w.files
      && q.past[0] == UninstallState(answers, w, paths, 1)
      && q.past[1] == UninstallState(answers, w, paths, 2)
      && q.past[2] == q.world == UninstallState(answers, w, paths, 3)
  {
  }

  /** A file outlives the first `n` removals exactly if none of them was granted for it. */
  lemma {:induction false} Outlives(
      answers: Answers, first: nat, files: Files, paths: seq<Path>, n: nat, p: Path)
    requires n <= |paths|
    ensures var left := Remaining(answers, first, files, paths, n);
      && (p in left <==> p in files && forall k :: 0 <= k < n && paths[k] == p ==> answers(first + k) != Works)
      && (p in left ==> left[p] == files[p])
  {
    if n > 0 { Outlives(answers, first, files, paths, n - 1, p); }
  }

  // ---- what an uninstall reports ----

  /** With no new failure reported, every path asked for is gone. */
  lemma {:induction false} NoFailureMeansGone(answers: Answers, r: Run, paths: seq<Path>, item: string, o: Outcome)
    ensures var (q, p) := RemoveFiles(answers, r, paths, item, o);
      && o.failed <= p.failed && o.removed <= p.removed
      && q.world.files.Keys <= r.world.files.Keys
      && (p.failed == o.failed ==> forall path <- paths :: path !in q.world.files)
  {
    if paths != [] { NoFailureMeansGone(answers, r, paths[..|paths| - 1], item, o); }
  }

  /** An uninstall that reports no failure has removed everything it was asked to, and one
      that could not delete the version record says so. */
  lemma ReportIsHonest(answers: Answers, w: World, program: seq<Path>, data: seq<Path>)
    ensures var (q, o) := PerformUninstall(answers, StartedOn(w), program, data);
      && (answers(0) != Works ==> VERSION_RECORD in o.failed)
      && (o.failed == [] ==>
            && q.world.stamp.None? && !q.world.registered && !q.world.shortcut
            && forall path <- program + data :: path !in q.world.files)
  {
    var (cleared, o) := ClearRegistration(answers, StartedOn(w), Outcome([], []));
    var (unlinked, p) := RemoveShortcut(answers, cleared, o);
    var (emptied, e) := RemoveFiles(answers, unlinked, program, PROGRAM_FILES, p);
    var (q, last) := PerformUninstall(answers, StartedOn(w), program, data);
    NoFailureMeansGone(answers, unlinked, program, PROGRAM_FILES, p);
    NoFailureMeansGone(answers, emptied, data, USER_DATA, e);
    RemovingIsSteps(answers, unlinked, program, PROGRAM_FILES, p);
    RemovingIsSteps(answers, emptied, data, USER_DATA, e);
    HeadIsHonest(answers, w);
    assert p.failed <= e.failed <= last.failed;
    assert p.failed != [] ==> last.failed[0] == p.failed[0];
  }

  lemma HeadIsHonest(answers: Answers, w: World)
    ensures var (cleared, o) := ClearRegistration(answers, StartedOn(w), Outcome([], []));
      var (q, p) := RemoveShortcut(answers, cleared, o);
      && (answers(0) != Works ==> p.failed != [] && p.failed[0] == VERSION_RECORD)
      && (p.failed == [] ==> q.world.stamp.None? && !q.world.registered && !q.world.shortcut)
  {
  }

  /** What is reported as removed was there before; a record or entry so reported is gone. */
  lemma RemovalsAreReal(answers: Answers, w: World)
    ensures var (q, o) := ClearRegistration(answers, StartedOn(w), Outcome([], []));
      && (VERSION_RECORD in o.removed <==> w.stamp.Some? && answers(0) == Works)
      && (PROGRAMS_ENTRY in o.removed <==> w.registered && answers(1) == Works)
      && (VERSION_RECORD in o.removed ==> q.world.stamp.None?)
      && (PROGRAMS_ENTRY in o.removed ==> !q.world.registered)
  {
    assert VERSION_RECORD[0] == 'v' && PROGRAMS_ENTRY[0] == 'A';
  }

  /** Path `i` of `paths`, asked for from request `first` on, was there when its turn came. */
  predicate WasThere(answers: Answers, first: nat, files: Files, paths: seq<Path>, i: nat)
    requires i < |paths|
  {
    paths[i] in Remaining(answers, first, files, paths, i)
  }

  predicate SomeTook(answers: Answers, first: nat, files: Files, paths: seq<Path>, from: nat, to: nat)
    requires to <= |paths|
  {
    exists i :: from <= i < to && WasThere(answers, first, files, paths, i) && answers(first + i) == Works
  }

  predicate SomeStayed(answers: Answers, first: nat, files: Files, paths: seq<Path>, from: nat, to: nat)
    requires to <= |paths|
  {
    exists i :: from <= i < to && WasThere(answers, first, files, paths, i) && answers(first + i) != Works
  }

  /** A group of files is reported as removed exactly if one of them went when asked for, and as
      failed exactly if one that was there did not; nothing is said of anything else. */
  lemma {:induction false} GroupReport(answers: Answers, r: Run, paths: seq<Path>, item: string, o: Outcome)
    ensures var p := RemoveFiles(answers, r, paths, item, o).1;
      && (item in p.removed <==>
            item in o.removed || SomeTook(answers, r.asked, r.world.files, paths, 0, |paths|))
      && (item in p.failed <==>
            item in o.failed || SomeStayed(answers, r.asked, r.world.files, paths, 0, |paths|))
      && (forall other :: other != item ==> (other in p.removed <==> other in o.removed))
      && (forall other :: other != item ==> (other in p.failed <==> other in o.failed))
  {
    if paths != [] {
      var init, path, n := paths[..|paths| - 1], paths[|paths| - 1], |paths| - 1;
      GroupReport(answers, r, init, item, o);
      RemovingIsSteps(answers, r, init, item, o);
      assert init + [path] == paths;
      forall i: nat | i <= n
        ensures Remaining(answers, r.asked, r.world.files, paths, i)
             == Remaining(answers, r.asked, r.world.files, init, i)
      {
        RemainingOfFirst(answers, r.asked, r.world.files, init, [path], i);
      }
      OneMore(answers, r.asked, r.world.files, paths);
    }
  }

  /** The last path decides if none before it does. */
  lemma OneMore(answers: Answers, first: nat, files: Files, paths: seq<Path>)
    requires paths != []
    requires forall i: nat :: i < |paths| ==>
      Remaining(answers, first, files, paths, i) == Remaining(answers, first, files, paths[..|paths| - 1], i)
    ensures var init, n := paths[..|paths| - 1], |paths| - 1;
      && (SomeTook(answers, first, files, paths, 0, n + 1) <==>
            || SomeTook(answers, first, files, init, 0, n)
            || (WasThere(answers, first, files, paths, n) && answers(first + n) == Works))
      && (SomeStayed(answers, first, files, paths, 0, n + 1) <==>
            || SomeStayed(answers, first, files, init, 0, n)
            || (WasThere(answers, first, files, paths, n) && answers(first + n) != Works))
  {
    var init, n := paths[..|paths| - 1], |paths| - 1;
    assert forall i: nat :: i < n ==>
      (WasThere(answers, first, files, paths, i) <==> WasThere(answers, first, files, init, i));
  }

  /** What an uninstall reports, from the answers alone: the record and the entry are reported
      as failed exactly if their deletion was refused, the shortcut if it was there too, and
      each group of files exactly if some file of it that was there was refused. */
  lemma UninstallReport(answers: Answers, w: World, program: seq<Path>, data: seq<Path>)
    ensures var o := PerformUninstall(answers, StartedOn(w), program, data).1;
      var all, n := program + data, |program|;
      && (VERSION_RECORD in o.failed <==> answers(0) != Works)
      && (PROGRAMS_ENTRY in o.failed <==> answers(1) != Works)
      && (SHORTCUTS in o.failed <==> w.shortcut && answers(2) != Works)
      && (SHORTCUTS in o.removed <==> w.shortcut && answers(2) == Works)
      && (PROGRAM_FILES in o.failed <==> SomeStayed(answers, 3, w.files, all, 0, n))
      && (PROGRAM_FILES in o.removed <==> SomeTook(answers, 3, w.files, all, 0, n))
      && (USER_DATA in o.failed <==> SomeStayed(answers, 3, w.files, all, n, |all|))
      && (USER_DATA in o.removed <==> SomeTook(answers, 3, w.files, all, n, |all|))
  {
    var (cleared, o) := ClearRegistration(answers, StartedOn(w), Outcome([], []));
    var (unlinked, p) := RemoveShortcut(answers, cleared, o);
    var (emptied, q) := RemoveFiles(answers, unlinked, program, PROGRAM_FILES, p);
    LabelsDiffer();
    HeadReport(answers, w);
    RemovingIsSteps(answers, unlinked, program, PROGRAM_FILES, p);
    SplitGroups(answers, w.files, program, data);
    GroupReport(answers, unlinked, program, PROGRAM_FILES, p);
    GroupReport(answers, emptied, data, USER_DATA, q);
  }

  lemma LabelsDiffer()
    ensures VERSION_RECORD != PROGRAMS_ENTRY && VERSION_RECORD != SHORTCUTS && PROGRAMS_ENTRY != SHORTCUTS
    ensures PROGRAM_FILES !in {VERSION_RECORD, PROGRAMS_ENTRY, SHORTCUTS, USER_DATA}
    ensures USER_DATA !in {VERSION_RECORD, PROGRAMS_ENTRY, SHORTCUTS}
  {
    assert VERSION_RECORD[0] == 'v' && PROGRAMS_ENTRY[0] == 'A' && SHORTCUTS[0] == 'S';
    assert PROGRAM_FILES[0] == 'p' && USER_DATA[0] == 'u';
  }

  lemma HeadReport(answers: Answers, w: World)
    ensures var (cleared, o) := ClearRegistration(answers, StartedOn(w), Outcome([], []));
      var (q, p) := RemoveShortcut(answers, cleared, o);
      && q.asked == 3 && q.world.files == w.files
      && (VERSION_RECORD in p.failed <==> answers(0) != Works)
      && (PROGRAMS_ENTRY in p.failed <==> answers(1) != Works)
      && (SHORTCUTS in p.failed <==> w.shortcut && answers(2) != Works)
      && (SHORTCUTS in p.removed <==> w.shortcut && answers(2) == Works)
      && (forall x <- p.failed + p.removed :: x in {VERSION_RECORD, PROGRAMS_ENTRY, SHORTCUTS})
  {
    LabelsDiffer();
    var none := Outcome([], []);
    var record := Reported(none, VERSION_RECORD, w.stamp.Some?, answers(0) == Works);
    var entry := Reported(record, PROGRAMS_ENTRY, w.registered, answers(1) == Works);
    ReportedHas(none, VERSION_RECORD, w.stamp.Some?, answers(0) == Works);
    ReportedHas(record, PROGRAMS_ENTRY, w.registered, answers(1) == Works);
    var (cleared, o) := ClearRegistration(answers, StartedOn(w), none);
    assert o == entry && cleared.asked == 2 && cleared.world.shortcut == w.shortcut;
    ReportedHas(entry, SHORTCUTS, w.shortcut, answers(2) == Works || !w.shortcut);
  }

  lemma ReportedHas(o: Outcome, item: string, there: bool, granted: bool)
    ensures var p := Reported(o, item, there, granted);
      && (forall x :: x in p.failed <==> x in o.failed || (x == item && !granted))
      && (forall x :: x in p.removed <==> x in o.removed || (x == item && granted && there))
  {
  }

  /** The two groups, one list after the other. */
  lemma SplitGroups(answers: Answers, files: Files, a: seq<Path>, b: seq<Path>)
    ensures var left := Remaining(answers, 3, files, a, |a|);
      && (SomeStayed(answers, 3, files, a + b, 0, |a|) <==> SomeStayed(answers, 3, files, a, 0, |a|))
      && (SomeTook(answers, 3, files, a + b, 0, |a|) <==> SomeTook(answers, 3, files, a, 0, |a|))
      && (SomeStayed(answers, 3, files, a + b, |a|, |a + b|) <==> SomeStayed(answers, 3 + |a|, left, b, 0, |b|))
      && (SomeTook(answers, 3, files, a + b, |a|, |a + b|) <==> SomeTook(answers, 3 + |a|, left, b, 0, |b|))
  {
    var left := Remaining(answers, 3, files, a, |a|);
    forall i: nat | i < |a|
      ensures WasThere(answers, 3, files, a + b, i) <==> WasThere(answers, 3, files, a, i)
    {
      RemainingOfFirst(answers, 3, files, a, b, i);
    }
    forall j: nat | |a| <= j < |a + b|
      ensures WasThere(answers, 3, files, a + b, j) <==> WasThere(answers, 3 + |a|, left, b, j - |a|)
    {
      RemainingOfSecond(answers, 3, files, a, b, j - |a|);
    }
    Shifted(answers, 3, files, a + b, left, b, |a|);
  }

  /** A list that is there from `n` on as `b` is there from its start has the same outcome. */
  lemma Shifted(answers: Answers, first: nat, files: Files, all: seq<Path>, left: Files, b: seq<Path>, n: nat)
    requires |all| == n + |b|
    requires forall j: nat :: n <= j < |all| ==>
      (WasThere(answers, first, files, all, j) <==> WasThere(answers, first + n, left, b, j - n))
    ensures SomeStayed(answers, first, files, all, n, |all|) <==> SomeStayed(answers, first + n, left, b, 0, |b|)
    ensures SomeTook(answers, first, files, all, n, |all|) <==> SomeTook(answers, first + n, left, b, 0, |b|)
  {
    if SomeStayed(answers, first + n, left, b, 0, |b|) {
      var i :| 0 <= i < |b| && WasThere(answers, first + n, left, b, i) && answers(first + n + i) != Works;
      assert WasThere(answers, first, files, all, n + i);
    }
    if SomeTook(answers, first + n, left, b, 0, |b|) {
      var i :| 0 <= i < |b| && WasThere(answers, first + n, left, b, i) && answers(first + n + i) == Works;
      assert WasThere(answers, first, files, all, n + i);
    }
  }

  // ---- what the walk does not see ----

  /** What walking a directory finds: entries that cannot be read are passed over in silence. */
  function Walked(entries: seq<Path>, unreadable: set<Path>): seq<Path> {
    if entries == [] then []
    else
      var last := entries[|entries| - 1];
      Walked(entries[..|entries| - 1], unreadable) + (if last in unreadable then [] else [last])
  }

  lemma {:induction false} WalkedAre(entries: seq<Path>, unreadable: set<Path>, p: Path)
    ensures p in Walked(entries, unreadable) <==> p in entries && p !in unreadable
  {
    if entries != [] {
      WalkedAre(entries[..|entries| - 1], unreadable, p);
      assert p in entries <==> p in entries[..|entries| - 1] || p == entries[|entries| - 1];
    }
  }

  /** An uninstall that reports no failure has emptied the directories if and only if every
      entry it could not read was gone already or was among the user data it also removed. */
  lemma HonestIffReadable(answers: Answers, w: World, entries: seq<Path>, unreadable: set<Path>, data: seq<Path>)
    ensures var (q, o) := PerformUninstall(answers, StartedOn(w), Walked(entries, unreadable), data);
      o.failed == [] ==>
        ((forall p <- entries + data :: p !in q.world.files) <==>
         (forall p <- entries :: p in unreadable && p in w.files ==> p in data))
  {
    var program := Walked(entries, unreadable);
    var (q, o) := PerformUninstall(answers, StartedOn(w), program, data);
    ReportIsHonest(answers, w, program, data);
    if o.failed == [] {
      forall p <- entries + data
        ensures p in q.world.files <==> p in w.files && p in unreadable && p !in data
      {
        WalkedAre(entries, unreadable, p);
        NotAskedFor(answers, w, program, data, p);
        assert p in program + data <==> p in program || p in data;
      }
      assert forall p <- entries :: p in entries + data;
    }
  }

  /** A file nobody asks for stays. */
  lemma NotAskedFor(answers: Answers, w: World, program: seq<Path>, data: seq<Path>, p: Path)
    ensures p !in program && p !in data ==>
      (p in PerformUninstall(answers, StartedOn(w), program, data).0.world.files <==> p in w.files)
  {
    var paths := program + data;
    UninstallIsSteps(answers, w, program, data);
    Outlives(answers, UNINSTALL_HEAD, w.files, paths, |paths|, p);
    assert forall k :: 0 <= k < |paths| ==> paths[k] in program || paths[k] in data;
  }

  /** One unreadable file, everything granted: no failure is reported and the file is there. */
  lemma UnreadableStays(w: World, p: Path)
    requires p in w.files
    ensures var (q, o) := PerformUninstall((n: nat) => Works, StartedOn(w), Walked([p], {p}), []);
      o.failed == [] && p in q.world.files
  {
    assert [p][..0] == [];
    assert Walked([p], {p}) == [];
  }
}
