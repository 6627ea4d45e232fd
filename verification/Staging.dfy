/** The staging methods, against `StagingSteps`. */
module Staging {
  import opened Prelude
  import opened Disk
  import opened StagingSteps

  method PlaceBesideTheWorker(m: Machine, proof: Path, bytes: Bytes, name: string) returns (ok: bool)
    modifies m
    ensures (m.Now(), ok) == Place(m.answers, old(m.Now()), proof, bytes, name)
  {
    var temporary := proof + [Incoming(name)];
    ok := m.CopyFile(bytes, temporary);
    if ok {
      ok := m.RenameFile(temporary, proof + [name]);
    }
    if !ok {
      var removed := m.RemoveFile(temporary);
    }
  }

  method PreserveCpuWorker(m: Machine, proof: Path) returns (preserved: bool)
    modifies m
    ensures (m.Now(), preserved) == Preserve(m.answers, old(m.Now()), proof)
  {
    if proof + [WORKER] !in m.files {
      return false;
    }
    preserved := m.RenameFile(proof + [WORKER], proof + [PRESERVED]);
  }

  method PlaceArtifact(m: Machine, proof: Path, files: seq<InstallFile>) returns (ok: bool)
    modifies m
    ensures (m.Now(), ok) == PlaceFiles(m.answers, old(m.Now()), proof, files)
  {
    ghost var goal := PlaceFiles(m.answers, m.Now(), proof, files);
    assert files[0..] == files;
    for j := 0 to |files|
      invariant PlaceFiles(m.answers, m.Now(), proof, files[j..]) == goal
    {
      assert files[j..][1..] == files[j + 1..];
      if files[j].name.None? {
        continue;
      }
      var placed := PlaceBesideTheWorker(m, proof, files[j].bytes, files[j].name.value);
      if !placed {
        return false;
      }
    }
    ok := true;
  }

  /** `stage_graphics_card_payload`: the artifact fetched first is placed last. */
  method StageGraphicsCardPayload(m: Machine, proof: Path, q: Request) returns (r: Result<bool, ()>)
    modifies m
    ensures (m.Now(), r) == Stage(m.answers, old(m.Now()), proof, q)
  {
    if !q.wantsCuda || q.specs == [] {
      return Ok(false);
    }
    if !q.located {
      return Err(());
    }
    if !exists s <- q.specs :: s.present {
      return Ok(false);
    }
    var created := m.Ask();
    if created != Works {
      return Err(());
    }
    var preserved := PreserveCpuWorker(m, proof);
    var placed := PlaceArtifacts(m, proof, q.specs);
    r := if placed then Ok(true) else Err(());
  }

  method PlaceArtifacts(m: Machine, proof: Path, specs: seq<Spec>) returns (ok: bool)
    modifies m
    ensures (m.Now(), ok) == PlaceSpecs(m.answers, old(m.Now()), proof, specs, |specs|)
  {
    ghost var goal := PlaceSpecs(m.answers, m.Now(), proof, specs, |specs|);
    for i := |specs| downto 0
      invariant PlaceSpecs(m.answers, m.Now(), proof, specs, i) == goal
    {
      if !specs[i].usable {
        return false;
      }
      var placed := PlaceArtifact(m, proof, specs[i].files);
      if !placed {
        return false;
      }
    }
    ok := true;
  }
}
