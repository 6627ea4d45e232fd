/** The install and uninstall methods, against `InstallSteps`. */
module Install {
  import opened Prelude
  import opened Disk
  import opened InstallSteps

  method CopyDirectory(m: Machine, entries: seq<Entry>, at: Path) returns (ok: bool)
    modifies m`asked, m`files, m`past
    ensures (m.Now(), ok) == CopyTree(m.answers, old(m.Now()), entries, at)
    decreases entries
  {
    var listed := m.Ask(); // the directory is created and listed
    if listed != Works {
      return false;
    }
    ghost var goal := CopyEntries(m.answers, m.Now(), entries, at);
    for i := 0 to |entries|
      invariant CopyEntries(m.answers, m.Now(), entries[i..], at) == goal
    {
      var entry := entries[i];
      assert entries[i..][0] == entry && entries[i..][1..] == entries[i + 1..];
      match entry {
        case FileEntry(name, bytes) => ok := m.CopyFile(bytes, at + [name]);
        case DirectoryEntry(name, children) => ok := CopyDirectory(m, children, at + [name]);
      }
      if !ok {
        return false;
      }
    }
    ok := true;
  }

  /** `install::perform`. */
  method InstallPayload(m: Machine, payload: Option<seq<Entry>>, root: Path, shown: string) returns (ok: bool)
    modifies m
    ensures (m.Now(), ok) == PerformInstall(m.answers, old(m.Now()), payload, root, shown)
  {
    if payload.None? {
      return false;
    }
    ok := CopyDirectory(m, payload.value, root);
    if !ok {
      return false;
    }
    ok := RegisterAndStamp(m, shown);
  }

  method RegisterAndStamp(m: Machine, shown: string) returns (ok: bool)
    modifies m
    ensures (m.Now(), ok) == Register(m.answers, old(m.Now()), shown)
  {
    var answer := m.Ask();
    if answer != Works {
      return false;
    }
    m.registered := true;
    m.past := m.past + [m.Now().world];
    answer := m.Ask();
    if answer != Works {
      return false;
    }
    m.shortcut := true;
    m.past := m.past + [m.Now().world];
    answer := m.Ask();
    if answer != Works {
      return false;
    }
    m.stamp := Some(shown);
    m.past := m.past + [m.Now().world];
    ok := true;
  }

  method ClearRecords(m: Machine, outcome: Outcome) returns (o: Outcome)
    modifies m
    ensures (m.Now(), o) == ClearRegistration(m.answers, old(m.Now()), outcome)
  {
    var recorded := m.stamp.Some?;
    var answer := m.Ask();
    if answer == Works {
      m.stamp := None;
    }
    m.past := m.past + [m.Now().world];
    o := Reported(outcome, VERSION_RECORD, recorded, answer == Works);
    var listed := m.registered;
    answer := m.Ask();
    if answer == Works {
      m.registered := false;
    }
    m.past := m.past + [m.Now().world];
    o := Reported(o, PROGRAMS_ENTRY, listed, answer == Works);
  }

  method RemoveShortcuts(m: Machine, outcome: Outcome) returns (o: Outcome)
    modifies m
    ensures (m.Now(), o) == RemoveShortcut(m.answers, old(m.Now()), outcome)
  {
    var there := m.shortcut;
    var answer := m.Ask();
    if answer == Works {
      m.shortcut := false;
    }
    m.past := m.past + [m.Now().world];
    o := Reported(outcome, SHORTCUTS, there, answer == Works || !there);
  }

  method RemoveEach(m: Machine, paths: seq<Path>, item: string, outcome: Outcome) returns (o: Outcome)
    modifies m
    ensures (m.Now(), o) == RemoveFiles(m.answers, old(m.Now()), paths, item, outcome)
  {
    o := outcome;
    for i := 0 to |paths|
      invariant (m.Now(), o) == RemoveFiles(m.answers, old(m.Now()), paths[..i], item, outcome)
    {
      assert paths[..i + 1][..i] == paths[..i];
      var there := paths[i] in m.files;
      var gone := m.RemoveFile(paths[i]);
      o := Reported(o, item, gone, gone || !there);
    }
    assert paths[..|paths|] == paths;
  }

  /** `read_dir(..).flatten()`. */
  method WalkDirectory(entries: seq<Path>, unreadable: set<Path>) returns (listed: seq<Path>)
    ensures listed == Walked(entries, unreadable)
  {
    listed := [];
    for i := 0 to |entries|
      invariant listed == Walked(entries[..i], unreadable)
    {
      assert entries[..i + 1][..i] == entries[..i];
      if entries[i] in unreadable {
        continue;
      }
      listed := listed + [entries[i]];
    }
    assert entries[..|entries|] == entries;
  }

  /** `uninstall::perform`. */
  method UninstallAll(m: Machine, entries: seq<Path>, unreadable: set<Path>, data: seq<Path>) returns (o: Outcome)
    modifies m
    ensures (m.Now(), o) == PerformUninstall(m.answers, old(m.Now()), Walked(entries, unreadable), data)
  {
    o := ClearRecords(m, Outcome([], []));
    o := RemoveShortcuts(m, o);
    var program := WalkDirectory(entries, unreadable);
    o := RemoveEach(m, program, PROGRAM_FILES, o);
    o := RemoveEach(m, data, USER_DATA, o);
  }
}
