/** The machine an installer changes: files, registry entries and a shortcut, one request
    to the system at a time.

    What the system answers is an input: `answers(n)` is its answer to request number `n`.
    A program that runs is a `Run`; its `past` holds every world it went through, so a
    claim about all of `past` is a claim about being stopped anywhere. */
module Disk {
  import opened Prelude

  type Bytes = seq<nat>
  type Path = seq<string>

  datatype Content = Whole(bytes: Bytes) | Truncated

  type Files = map<Path, Content>

  datatype World = World(files: Files, stamp: Option<string>, registered: bool, shortcut: bool)

  /** Done, refused, or broken off half way, which only a copy can be. */
  datatype Answer = Works | Refuses | BreaksOff

  type Answers = nat -> Answer

  ghost predicate Granted(answers: Answers) {
    forall k :: answers(k) == Works
  }

  datatype Run = Run(world: World, past: seq<World>, asked: nat)

  function StartedOn(w: World): Run { Run(w, [], 0) }

  function Asked(r: Run): Run { r.(asked := r.asked + 1) }

  function Moved(r: Run, w: World): Run { r.(world := w, past := r.past + [w]) }

  function WithFiles(r: Run, files: Files): Run { Moved(r, r.world.(files := files)) }

  /** `std::fs::copy`: refused before it starts, broken off half way, or done. */
  function Copy(answers: Answers, r: Run, bytes: Bytes, target: Path): (Run, bool) {
    var next, files := Asked(r), r.world.files;
    match answers(r.asked)
    case Refuses => (next, false)
    case BreaksOff => (WithFiles(next, files[target := Truncated]), false)
    case Works => (WithFiles(WithFiles(next, files[target := Truncated]), files[target := Whole(bytes)]), true)
  }

  /** `std::fs::rename`: happens or does not, and replaces what was there. */
  function Rename(answers: Answers, r: Run, from: Path, to: Path): (Run, bool) {
    var files := r.world.files;
    if from !in files || answers(r.asked) != Works then (Asked(r), false)
    else (WithFiles(Asked(r), (files - {from})[to := files[from]]), true)
  }

  /** `std::fs::remove_file`. */
  function Remove(answers: Answers, r: Run, path: Path): (Run, bool) {
    if path !in r.world.files || answers(r.asked) != Works then (Moved(Asked(r), r.world), false)
    else (WithFiles(Asked(r), r.world.files - {path}), true)
  }

  ghost predicate AllWhole(files: Files, tree: map<Path, Bytes>) {
    forall p <- tree :: p in files && files[p] == Whole(tree[p])
  }

  class Machine {
    const answers: Answers
    var files: Files
    var stamp: Option<string>
    var registered: bool
    var shortcut: bool
    var asked: nat
    ghost var past: seq<World>

    ghost function Now(): Run
      reads this
    {
      Run(World(files, stamp, registered, shortcut), past, asked)
    }

    constructor (answers: Answers, w: World)
      ensures this.answers == answers && Now() == StartedOn(w)
    {
      this.answers := answers;
      files, stamp, registered, shortcut := w.files, w.stamp, w.registered, w.shortcut;
      asked, past := 0, [];
    }

    /** The answer to the next request. */
    method Ask() returns (answer: Answer)
      modifies this`asked
      ensures answer == answers(old(asked)) && Now() == Asked(old(Now()))
    {
      answer := answers(asked);
      asked := asked + 1;
    }

    method CopyFile(bytes: Bytes, target: Path) returns (ok: bool)
      modifies this`asked, this`files, this`past
      ensures (Now(), ok) == Copy(answers, old(Now()), bytes, target)
    {
      ghost var before := files;
      var answer := Ask();
      if answer == Refuses {
        return false;
      }
      files := files[target := Truncated];
      past := past + [Now().world];
      if answer == BreaksOff {
        return false;
      }
      files := files[target := Whole(bytes)];
      past := past + [Now().world];
      assert files == before[target := Whole(bytes)];
      ok := true;
    }

    method RenameFile(from: Path, to: Path) returns (ok: bool)
      modifies this`asked, this`files, this`past
      ensures (Now(), ok) == Rename(answers, old(Now()), from, to)
    {
      var answer := Ask();
      if from !in files || answer != Works {
        return false;
      }
      files := (files - {from})[to := files[from]];
      past := past + [Now().world];
      ok := true;
    }

    method RemoveFile(path: Path) returns (ok: bool)
      modifies this`asked, this`files, this`past
      ensures (Now(), ok) == Remove(answers, old(Now()), path)
    {
      var answer := Ask();
      ok := path in files && answer == Works;
      if ok {
        files := files - {path};
      }
      past := past + [Now().world];
    }
  }
}
