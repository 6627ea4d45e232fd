/** The payload archive of payload.rs: its writer, its reader, and how each undoes the other.

    A Rust string is its UTF-8 bytes, and every character the path rules look for is
    ASCII, so paths are byte sequences here and UTF-8 validity a given predicate. */
module Payload {
  import opened Prelude
  import opened Bytes
  import opened Records
  import opened Splitting

  type Digest = s: seq<byte> | |s| == 32 witness seq(32, i => 0)

  /** What the archive takes from elsewhere: UTF-8 validity and SHA-256. */
  datatype Env = Env(utf8: seq<byte> -> bool, sha256: seq<byte> -> Digest)

  datatype Entry = Entry(path: seq<byte>, bytes: seq<byte>)

  datatype ArchiveError = Io | Damaged | UnknownFormat(found: nat) | UnsafePath(path: seq<byte>)

  const SLASH: byte := 0x2F
  const BACKSLASH: byte := 0x5C
  const COLON: byte := 0x3A
  const DOT_DOT: seq<byte> := [0x2E, 0x2E]
  /** "SEMINIPL" */
  const MAGIC: seq<byte> := [0x53, 0x45, 0x4D, 0x49, 0x4E, 0x49, 0x50, 0x4C]
  const FORMAT_VERSION: nat := 1
  const TRAILER_BYTES: nat := 8 + 4 + 4 + 8

  function IsSlash(): byte -> bool { (c: byte) => c == SLASH }

  predicate Rejected(path: seq<byte>) {
    || path == []
    || path[0] == SLASH
    || BACKSLASH in path
    || COLON in path
    || [] in Split(path, IsSlash())
    || DOT_DOT in Split(path, IsSlash())
  }

  function CheckedRelativePath(path: seq<byte>): Result<seq<byte>, ArchiveError> {
    if Rejected(path) then Err(UnsafePath(path)) else Ok(path)
  }

  // ---- writing ----

  function EncodeEntry(env: Env, e: Entry): seq<byte> {
    PutField(e.path, 4) + PutField(e.bytes, 8) + env.sha256(e.bytes)
  }

  function EntryWriter(env: Env): Entry -> seq<byte> { (e: Entry) => EncodeEntry(env, e) }

  function Encode(env: Env, entries: seq<Entry>): seq<byte> {
    WriteMany(EntryWriter(env), entries)
  }

  function Trailer(archiveBytes: nat, count: nat): (t: seq<byte>)
    ensures |t| == TRAILER_BYTES
  {
    Le(archiveBytes, 8) + Le(count, 4) + Le(FORMAT_VERSION, 4) + MAGIC
  }

  predicate Packable(e: Entry) {
    !Rejected(e.path) && |e.path| <= U32_MAX
  }

  /** The first entry that cannot be packed decides the error. */
  function FirstRefusal(entries: seq<Entry>): Option<ArchiveError> {
    if entries == [] then None
    else if !Packable(entries[0]) then Some(UnsafePath(entries[0].path))
    else FirstRefusal(entries[1..])
  }

  function Append(env: Env, host: seq<byte>, entries: seq<Entry>): Result<seq<byte>, ArchiveError> {
    var refusal := FirstRefusal(entries);
    if refusal.Some? then Err(refusal.value)
    else if |entries| > U32_MAX then Err(Damaged)
    else
      var archive := Encode(env, entries);
      Ok(host + archive + Trailer(|archive|, |entries|))
  }

  // ---- the format, byte by byte ----

  /** Four bytes of path length, the path, eight of data length, the data, the digest. */
  lemma EntryLayout(env: Env, e: Entry)
    requires |e.path| <= 0xFFFF_FFFF && |e.bytes| <= 0xFFFF_FFFF_FFFF_FFFF
    ensures var x, n, m := EncodeEntry(env, e), |e.path|, |e.bytes|;
      && |x| == 4 + n + 8 + m + 32
      && FourBytes(x[..4]) == n && x[4..4 + n] == e.path
      && EightBytes(x[4 + n..12 + n]) == m && x[12 + n..12 + n + m] == e.bytes
      && x[12 + n + m..] == env.sha256(e.bytes)
  {
    LeBytes(|e.path|);
    LeBytes(|e.bytes|);
    Fields(Le(|e.path|, 4), e.path, Le(|e.bytes|, 8), e.bytes, env.sha256(e.bytes));
  }

  lemma Fields(a: seq<byte>, b: seq<byte>, c: seq<byte>, d: seq<byte>, e: seq<byte>)
    ensures var x := (a + b) + (c + d) + e;
      var i, j, k := |a| + |b|, |a| + |b| + |c|, |a| + |b| + |c| + |d|;
      && x[..|a|] == a && x[|a|..i] == b && x[i..j] == c && x[j..k] == d && x[k..] == e
  {
  }

  /** Eight bytes of archive length, four of entry count, four of format, "SEMINIPL". */
  lemma TrailerLayout(archiveBytes: nat, count: nat)
    requires archiveBytes <= 0xFFFF_FFFF_FFFF_FFFF && count <= 0xFFFF_FFFF
    ensures var t := Trailer(archiveBytes, count);
      && |t| == 24 && EightBytes(t[..8]) == archiveBytes && FourBytes(t[8..12]) == count
      && FourBytes(t[12..16]) == 1 && t[16..] == [0x53, 0x45, 0x4D, 0x49, 0x4E, 0x49, 0x50, 0x4C]
  {
    LeBytes(archiveBytes);
    LeBytes(count);
    LeBytes(FORMAT_VERSION);
    var t := Trailer(archiveBytes, count);
    assert t[..8] == Le(archiveBytes, 8) && t[8..12] == Le(count, 4);
    assert t[12..16] == Le(FORMAT_VERSION, 4) && t[16..] == MAGIC;
  }

  // ---- reading ----

  function ReadEntry(env: Env, rest: seq<byte>): Result<(Entry, seq<byte>), ArchiveError> {
    var path := TakeField(rest, 4);
    if path.None? || !env.utf8(path.value.0) then Err(Damaged)
    else if Rejected(path.value.0) then Err(UnsafePath(path.value.0))
    else
      var bytes := TakeField(path.value.1, 8);
      if bytes.None? then Err(Damaged)
      else
        var after := bytes.value.1;
        if |after| < 32 || env.sha256(bytes.value.0) != after[..32] then Err(Damaged)
        else Ok((Entry(path.value.0, bytes.value.0), after[32..]))
  }

  function EntryReader(env: Env): Records.Read<Entry, ArchiveError> { (rest: seq<byte>) => ReadEntry(env, rest) }

  function ReadFile(env: Env, file: seq<byte>): Result<Option<seq<Entry>>, ArchiveError> {
    if |file| < TRAILER_BYTES then Ok(None)
    else
      var end := |file| - TRAILER_BYTES;
      var trailer := file[end..];
      if trailer[16..24] != MAGIC then Ok(None)
      else
        var archiveBytes, count := FromLe(trailer[0..8]), FromLe(trailer[8..12]);
        var format := FromLe(trailer[12..16]);
        if format != FORMAT_VERSION then Err(UnknownFormat(format))
        else if archiveBytes > end then Err(Damaged)
        else
          var entries := ReadMany(EntryReader(env), file[end - archiveBytes..end], count);
          if entries.Err? then Err(entries.error) else Ok(Some(entries.value.0))
  }

  // ---- the program's loops, against the functions above ----

  class HostFile {
    var bytes: seq<byte>

    constructor (bytes: seq<byte>)
      ensures this.bytes == bytes
    {
      this.bytes := bytes;
    }
  }

  lemma RefusalStep(env: Env, entries: seq<Entry>, i: nat)
    requires i < |entries|
    ensures FirstRefusal(entries[i..]) ==
      if Packable(entries[i]) then FirstRefusal(entries[i + 1..]) else Some(UnsafePath(entries[i].path))
    ensures Encode(env, entries[i..]) == EncodeEntry(env, entries[i]) + Encode(env, entries[i + 1..])
  {
    assert entries[i..][1..] == entries[i + 1..];
  }

  method EncodeAll(env: Env, entries: seq<Entry>) returns (r: Result<seq<byte>, ArchiveError>)
    ensures r == if FirstRefusal(entries).Some? then Err(FirstRefusal(entries).value) else Ok(Encode(env, entries))
  {
    var archive := [];
    assert entries[0..] == entries && [] + Encode(env, entries) == Encode(env, entries);
    for i := 0 to |entries|
      invariant FirstRefusal(entries) == FirstRefusal(entries[i..])
      invariant Encode(env, entries) == archive + Encode(env, entries[i..])
    {
      RefusalStep(env, entries, i);
      var entry := entries[i];
      var path := CheckedRelativePath(entry.path);
      if path.Err? {
        return Err(path.error);
      }
      if |entry.path| > U32_MAX {
        return Err(UnsafePath(entry.path));
      }
      Regroup(archive, EncodeEntry(env, entry), Encode(env, entries[i + 1..]));
      archive := AppendEntry(env, archive, entry);
    }
    assert entries[|entries|..] == [] && archive + [] == archive;
    r := Ok(archive);
  }

  /** Nothing reaches the file unless every entry can be packed; `disk` is how many bytes the
      disk takes before it fails, and a failure leaves a proper prefix behind. */
  method AppendArchive(env: Env, file: HostFile, entries: seq<Entry>, disk: nat) returns (r: Result<(), ArchiveError>)
    modifies file
    ensures var whole := Append(env, old(file.bytes), entries);
      if whole.Err? then
        r == Err(whole.error) && file.bytes == old(file.bytes)
      else if |old(file.bytes)| + disk < |whole.value| then
        r == Err(Io) && file.bytes == whole.value[..|old(file.bytes)| + disk]
      else
        r == Ok(()) && file.bytes == whole.value
  {
    var archive := EncodeAll(env, entries);
    if archive.Err? {
      return Err(archive.error);
    }
    if |entries| > U32_MAX {
      return Err(Damaged);
    }
    ghost var trailer := Trailer(|archive.value|, |entries|);
    PartOfBoth(file.bytes, archive.value, trailer, disk);
    if disk < |archive.value| {
      file.bytes := file.bytes + archive.value[..disk];
      return Err(Io);
    }
    file.bytes := file.bytes + archive.value;
    var left := disk - |archive.value|;
    if left < TRAILER_BYTES {
      file.bytes := file.bytes + Trailer(|archive.value|, |entries|)[..left];
      return Err(Io);
    }
    file.bytes := file.bytes + Trailer(|archive.value|, |entries|);
    r := Ok(());
  }

  lemma PartOfBoth(host: seq<byte>, a: seq<byte>, b: seq<byte>, n: nat)
    ensures n < |a| ==> (host + a + b)[..|host| + n] == host + a[..n]
    ensures |a| <= n < |a| + |b| ==> (host + a + b)[..|host| + n] == host + a + b[..n - |a|]
  {
  }

  method AppendEntry(env: Env, archive: seq<byte>, entry: Entry) returns (longer: seq<byte>)
    ensures longer == archive + EncodeEntry(env, entry)
  {
    longer := archive + Le(|entry.path|, 4);
    longer := longer + entry.path;
    longer := longer + Le(|entry.bytes|, 8);
    longer := longer + entry.bytes;
    longer := longer + env.sha256(entry.bytes);
  }

  method ReadOneEntry(env: Env, reader: Reader) returns (r: Result<Entry, ArchiveError>)
    requires reader.Valid()
    modifies reader
    ensures reader.Valid()
    ensures r.Ok? ==> EntryReader(env)(old(reader.Rest())) == Ok((r.value, reader.Rest()))
    ensures r.Err? ==> EntryReader(env)(old(reader.Rest())) == Err(r.error)
  {
    var path := reader.ReadField(4);
    if path.None? { return Err(Damaged); }
    if !env.utf8(path.value) { return Err(Damaged); }
    var checked := CheckedRelativePath(path.value);
    if checked.Err? { return Err(checked.error); }
    var bytes := reader.ReadField(8);
    if bytes.None? { return Err(Damaged); }
    var expected := reader.ReadExact(32);
    if expected.None? { return Err(Damaged); }
    if env.sha256(bytes.value) != expected.value { return Err(Damaged); }
    r := Ok(Entry(path.value, bytes.value));
  }

  method ReadArchive(env: Env, file: HostFile) returns (r: Result<Option<seq<Entry>>, ArchiveError>)
    ensures r == ReadFile(env, file.bytes)
  {
    var total := |file.bytes|;
    if total < TRAILER_BYTES {
      return Ok(None);
    }
    var trailer := file.bytes[total - TRAILER_BYTES..];
    if trailer[16..24] != MAGIC {
      return Ok(None);
    }
    var archiveBytes, count := FromLe(trailer[0..8]), FromLe(trailer[8..12]);
    var format := FromLe(trailer[12..16]);
    if format != FORMAT_VERSION {
      return Err(UnknownFormat(format));
    }
    if archiveBytes > total - TRAILER_BYTES {
      return Err(Damaged);
    }
    var start := total - TRAILER_BYTES - archiveBytes;
    var reader := new Reader(file.bytes[start..start + archiveBytes]);
    var entries := ReadAllEntries(env, reader, count);
    r := if entries.Err? then Err(entries.error) else Ok(Some(entries.value));
  }

  method ReadAllEntries(env: Env, reader: Reader, count: nat) returns (r: Result<seq<Entry>, ArchiveError>)
    requires reader.Valid()
    modifies reader
    ensures var all := ReadMany(EntryReader(env), old(reader.Rest()), count);
      r == if all.Err? then Err(all.error) else Ok(all.value.0)
  {
    var entries := [];
    ghost var read, all := EntryReader(env), ReadMany(EntryReader(env), reader.Rest(), count);
    PrependedNothing(all);
    for i := 0 to count
      invariant reader.Valid()
      invariant all == Prepended(entries, ReadMany(read, reader.Rest(), count - i))
    {
      ghost var rest := reader.Rest();
      ReadOn(read, entries, rest, count - i);
      var entry := ReadOneEntry(env, reader);
      assert entry.Ok? ==> read(rest) == Ok((entry.value, reader.Rest()));
      if entry.Err? {
        return Err(entry.error);
      }
      entries := entries + [entry.value];
    }
    ReadOut(read, entries, reader.Rest());
    r := Ok(entries);
  }

  // ---- each undoes the other ----

  /** Lengths that 64-bit fields can record, and paths that are strings. */
  predicate Representable(env: Env, entries: seq<Entry>) {
    && |Encode(env, entries)| <= U64_MAX
    && forall e <- entries :: env.utf8(e.path) && |e.bytes| <= U64_MAX
  }

  lemma {:induction false} AcceptedWhenPackable(entries: seq<Entry>)
    ensures FirstRefusal(entries).None? <==> forall e <- entries :: Packable(e)
  {
    if entries != [] {
      AcceptedWhenPackable(entries[1..]);
      assert forall e :: e in entries <==> e == entries[0] || e in entries[1..];
    }
  }

  lemma {:induction false} FirstOneDecides(entries: seq<Entry>, i: nat)
    requires i < |entries| && !Packable(entries[i]) && forall j :: 0 <= j < i ==> Packable(entries[j])
    ensures FirstRefusal(entries) == Some(UnsafePath(entries[i].path))
    decreases i
  {
    if i > 0 { FirstOneDecides(entries[1..], i - 1); }
  }

  // ---- which paths are accepted ----

  /** Components joined by slashes. */
  function Slashed(parts: seq<seq<byte>>): seq<byte> {
    if parts == [] then []
    else if |parts| == 1 then parts[0]
    else Slashed(parts[..|parts| - 1]) + [0x2F] + parts[|parts| - 1]
  }

  /** A component that names something below where it stands: not empty, not "..", and free of
      slash, backslash and colon. */
  predicate ProperPart(part: seq<byte>) {
    part != [] && part != [0x2E, 0x2E] && 0x2F !in part && 0x5C !in part && 0x3A !in part
  }

  ghost predicate ProperPath(path: seq<byte>) {
    exists parts: seq<seq<byte>> :: MadeOf(path, parts)
  }

  ghost predicate MayPack(e: Entry) {
    ProperPath(e.path) && |e.path| <= 0xFFFF_FFFF
  }

  ghost predicate FirstImproper(entries: seq<Entry>, i: int) {
    0 <= i < |entries| && !MayPack(entries[i]) && forall j :: 0 <= j < i ==> MayPack(entries[j])
  }

  predicate MadeOf(path: seq<byte>, parts: seq<seq<byte>>) {
    parts != [] && path == Slashed(parts) && forall part <- parts :: ProperPart(part)
  }

  lemma {:induction false} SplitOfSlashed(parts: seq<seq<byte>>)
    requires parts != [] && forall part <- parts :: 0x2F !in part
    ensures Split(Slashed(parts), IsSlash()) == parts
  {
    var init, last := parts[..|parts| - 1], parts[|parts| - 1];
    assert last in parts;
    SplitFree(last, IsSlash());
    if |parts| > 1 {
      SplitOfSlashed(init);
      SplitAt(Slashed(init), 0x2F, last, IsSlash());
      assert init + [last] == parts;
    }
  }

  /** Every path is what its splitting joins to. */
  lemma {:induction false} SlashedSplit(path: seq<byte>)
    ensures Slashed(Split(path, IsSlash())) == path
    ensures forall part <- Split(path, IsSlash()) :: 0x2F !in part
  {
    PartsAreFree(path, IsSlash());
    if path != [] {
      var rest := Split(path[1..], IsSlash());
      SlashedSplit(path[1..]);
      if path[0] == 0x2F {
        SlashedMore([], rest);
      } else {
        SlashedOnto([path[0]], rest);
      }
    }
  }

  lemma {:induction false} SlashedMore(first: seq<byte>, rest: seq<seq<byte>>)
    requires rest != []
    ensures Slashed([first] + rest) == first + [0x2F] + Slashed(rest)
  {
    var all := [first] + rest;
    if |rest| > 1 {
      assert all[..|all| - 1] == [first] + rest[..|rest| - 1];
      SlashedMore(first, rest[..|rest| - 1]);
      Regroup(first + [0x2F], Slashed(rest[..|rest| - 1]), [0x2F]);
      Regroup(first + [0x2F], Slashed(rest[..|rest| - 1]) + [0x2F], rest[|rest| - 1]);
    } else {
      assert all[..1] == [first];
    }
  }

  lemma {:induction false} SlashedOnto(prefix: seq<byte>, rest: seq<seq<byte>>)
    requires rest != []
    ensures Slashed([prefix + rest[0]] + rest[1..]) == prefix + Slashed(rest)
  {
    var all := [prefix + rest[0]] + rest[1..];
    if |rest| > 1 {
      var init := rest[..|rest| - 1];
      assert all[..|all| - 1] == [prefix + init[0]] + init[1..];
      SlashedOnto(prefix, init);
      Regroup(prefix, Slashed(init), [0x2F]);
      Regroup(prefix, Slashed(init) + [0x2F], rest[|rest| - 1]);
    }
  }

  lemma {:induction false} InSlashed(parts: seq<seq<byte>>, c: byte)
    requires c != 0x2F
    ensures c in Slashed(parts) <==> exists part <- parts :: c in part
  {
    if |parts| > 1 {
      var init, last := parts[..|parts| - 1], parts[|parts| - 1];
      InSlashed(init, c);
      assert c in Slashed(parts) <==> c in Slashed(init) || c in last;
      assert forall part :: part in parts <==> part in init || part == last;
    }
  }

  /** Joining components that hold no slash gives an accepted path if and only if there is one
      and every one is proper. */
  lemma AcceptedExactly(parts: seq<seq<byte>>)
    requires forall part <- parts :: 0x2F !in part
    ensures CheckedRelativePath(Slashed(parts)).Ok? <==> parts != [] && forall part <- parts :: ProperPart(part)
  {
    var path := Slashed(parts);
    if parts != [] {
      SplitOfSlashed(parts);
      InSlashed(parts, 0x5C);
      InSlashed(parts, 0x3A);
      if parts[0] != [] { StartsAsFirst(parts); }
    }
  }

  lemma {:induction false} StartsAsFirst(parts: seq<seq<byte>>)
    requires parts != [] && parts[0] != [] && 0x2F !in parts[0]
    ensures Slashed(parts) != [] && Slashed(parts)[0] == parts[0][0] != 0x2F
  {
    if |parts| > 1 { StartsAsFirst(parts[..|parts| - 1]); }
  }

  lemma ProperExactly(path: seq<byte>)
    ensures !Rejected(path) <==> ProperPath(path)
  {
    SlashedSplit(path);
    var split := Split(path, IsSlash());
    AcceptedExactly(split);
    if parts: seq<seq<byte>> :| MadeOf(path, parts) {
      AcceptedExactly(parts);
    }
    if !Rejected(path) { assert MadeOf(path, split); }
  }

  lemma ReadsBackEntry(env: Env, e: Entry, rest: seq<byte>)
    requires Packable(e) && env.utf8(e.path) && |e.bytes| <= U64_MAX
    ensures ReadEntry(env, EncodeEntry(env, e) + rest) == Ok((e, rest))
  {
    WidthsFit();
    var digest := env.sha256(e.bytes);
    var afterPath := PutField(e.bytes, 8) + (digest + rest);
    assert EncodeEntry(env, e) + rest == PutField(e.path, 4) + afterPath;
    FieldReadsBack(e.path, 4, afterPath);
    FieldReadsBack(e.bytes, 8, digest + rest);
    assert (digest + rest)[..32] == digest && (digest + rest)[32..] == rest;
  }

  lemma ReadsBackEntries(env: Env, entries: seq<Entry>)
    requires forall e <- entries :: Packable(e) && env.utf8(e.path) && |e.bytes| <= U64_MAX
    ensures ReadMany(EntryReader(env), Encode(env, entries), |entries|) == Ok((entries, []))
  {
    var read, write := EntryReader(env), EntryWriter(env);
    forall e <- entries, r: seq<byte>
      ensures read(write(e) + r) == Ok((e, r))
    {
      ReadsBackEntry(env, e, r);
    }
    ReadsBack(read, write, entries, []);
    assert Encode(env, entries) + [] == Encode(env, entries);
  }

  /** A file is an image, an archive region and a trailer that describes the region. */
  ghost predicate Carries(file: seq<byte>, image: seq<byte>, region: seq<byte>, count: nat) {
    |region| <= U64_MAX && count <= U32_MAX && file == image + region + Trailer(|region|, count)
  }

  /** What `ReadFile` makes of such a file depends on the region and the count alone. */
  lemma ReadCarried(env: Env, file: seq<byte>, image: seq<byte>, region: seq<byte>, count: nat)
    requires Carries(file, image, region, count)
    ensures var entries := ReadMany(EntryReader(env), region, count);
      ReadFile(env, file) == if entries.Err? then Err(entries.error) else Ok(Some(entries.value.0))
  {
    WidthsFit();
    LeRoundTrip(|region|, 8);
    LeRoundTrip(count, 4);
    LeRoundTrip(FORMAT_VERSION, 4);
    var end, trailer := |file| - TRAILER_BYTES, Trailer(|region|, count);
    assert file[end..] == trailer;
    assert trailer[0..8] == Le(|region|, 8) && trailer[8..12] == Le(count, 4);
    assert trailer[12..16] == Le(FORMAT_VERSION, 4) && trailer[16..24] == MAGIC;
    assert file[end - |region|..end] == region;
  }

  lemma StartsWith(a: seq<byte>, b: seq<byte>, c: seq<byte>)
    ensures a <= a + b + c
  {
  }

  /** Whatever the host file already holds: appending succeeds exactly if every path is made of
      proper components and the lengths fit, an improper one is named by the first of them, and
      reading after appending returns the entries. */
  lemma ReadUndoesAppend(env: Env, host: seq<byte>, entries: seq<Entry>)
    requires Representable(env, entries)
    ensures Append(env, host, entries).Ok? <==>
      (forall e <- entries :: MayPack(e)) && |entries| <= 0xFFFF_FFFF
    ensures forall i :: FirstImproper(entries, i) ==> Append(env, host, entries) == Err(UnsafePath(entries[i].path))
    ensures Append(env, host, entries).Ok? ==>
      && host <= Append(env, host, entries).value
      && ReadFile(env, Append(env, host, entries).value) == Ok(Some(entries))
  {
    AcceptedWhenPackable(entries);
    forall e <- entries { ProperExactly(e.path); }
    forall i | FirstImproper(entries, i)
      ensures Append(env, host, entries) == Err(UnsafePath(entries[i].path))
    {
      ProperExactly(entries[i].path);
      forall j | 0 <= j < i
        ensures Packable(entries[j])
      {
        ProperExactly(entries[j].path);
      }
      FirstOneDecides(entries, i);
    }
    var r := Append(env, host, entries);
    if r.Ok? {
      var archive := Encode(env, entries);
      StartsWith(host, archive, Trailer(|archive|, |entries|));
      ReadCarried(env, r.value, host, archive, |entries|);
      ReadsBackEntries(env, entries);
    }
  }

  lemma EntryWasEncoded(env: Env, rest: seq<byte>)
    requires ReadEntry(env, rest).Ok?
    ensures var (e, after) := ReadEntry(env, rest).value;
      && rest == EncodeEntry(env, e) + after
      && Packable(e) && env.utf8(e.path) && |e.bytes| <= U64_MAX
  {
    WidthsFit();
    FieldWasPut(rest, 4);
    var afterPath := TakeField(rest, 4).value.1;
    FieldWasPut(afterPath, 8);
    var afterBytes := TakeField(afterPath, 8).value.1;
    var (e, after) := ReadEntry(env, rest).value;
    assert afterBytes == env.sha256(e.bytes) + after;
    Regroup(PutField(e.path, 4) + PutField(e.bytes, 8), env.sha256(e.bytes), after);
    Regroup(PutField(e.path, 4), PutField(e.bytes, 8), env.sha256(e.bytes) + after);
  }

  predicate Trusted(env: Env, e: Entry) {
    Packable(e) && env.utf8(e.path) && |e.bytes| <= U64_MAX
  }

  lemma EntriesWereEncoded(env: Env, rest: seq<byte>, count: nat)
    requires ReadMany(EntryReader(env), rest, count).Ok?
    ensures var (entries, tail) := ReadMany(EntryReader(env), rest, count).value;
      |entries| == count && rest == Encode(env, entries) + tail && forall e <- entries :: Trusted(env, e)
  {
    var read, write, good := EntryReader(env), EntryWriter(env), (e: Entry) => Trusted(env, e);
    forall r: seq<byte> | read(r).Ok?
      ensures r == write(read(r).value.0) + read(r).value.1 && good(read(r).value.0)
    {
      EntryWasEncoded(env, r);
    }
    WasWritten(read, write, good, rest, count);
    var (entries, tail) := ReadMany(read, rest, count).value;
    assert forall e <- entries :: good(e);
  }

  /** Any file that reads as an archive is an image followed by a region and its trailer;
      the region starts with the encoding of the entries, their digests match their bytes
      and their paths are safe. It is what the packer would have appended to the image
      exactly when nothing is left of the region once they are read, which is not asked. */
  lemma ReadMeansEncoded(env: Env, file: seq<byte>) returns (image: seq<byte>, region: seq<byte>)
    requires ReadFile(env, file).Ok? && ReadFile(env, file).value.Some?
    ensures var entries := ReadFile(env, file).value.value;
      var parsed := ReadMany(EntryReader(env), region, |entries|);
      && Carries(file, image, region, |entries|)
      && parsed.Ok? && parsed.value.0 == entries
      && region == Encode(env, entries) + parsed.value.1
      && (forall e <- entries :: Packable(e) && env.utf8(e.path))
      && (Append(env, image, entries) == Ok(file) <==> parsed.value.1 == [])
  {
    var count;
    image, region, count := Dissect(file);
    ReadCarried(env, file, image, region, count);
    EntriesWereEncoded(env, region, count);
    var entries := ReadFile(env, file).value.value;
    AcceptedWhenPackable(entries);
    SameAppend(env, file, image, region, entries);
    NothingLeft(Encode(env, entries), ReadMany(EntryReader(env), region, count).value.1);
  }

  lemma NothingLeft(a: seq<byte>, tail: seq<byte>)
    ensures a == a + tail <==> tail == []
  {
    assert |a + tail| == |a| + |tail|;
  }

  /** A region of one stray byte that declares no entries is accepted, and the packer writes no
      such file over any image. */
  lemma LeftoverIsAccepted(env: Env, image: seq<byte>)
    ensures var file := image + [0] + Trailer(1, 0);
      && ReadFile(env, file) == Ok(Some([]))
      && forall other: seq<byte> :: Append(env, other, []) != Ok(file)
  {
    var file := image + [0] + Trailer(1, 0);
    ReadCarried(env, file, image, [0], 0);
    forall other: seq<byte>
      ensures Append(env, other, []) != Ok(file)
    {
      WidthsFit();
      LeRoundTrip(0, 8);
      LeRoundTrip(1, 8);
      var whole := other + [] + Trailer(0, 0);
      assert Trailer(0, 0)[..8] == Le(0, 8) && Trailer(1, 0)[..8] == Le(1, 8);
      assert whole[|whole| - TRAILER_BYTES..] == Trailer(0, 0);
      assert file[|file| - TRAILER_BYTES..] == Trailer(1, 0);
    }
  }

  // ---- what is read, exactly ----

  /** An entry the reader takes: its path is made of proper components. */
  ghost predicate MayRead(env: Env, e: Entry) {
    MayPack(e) && env.utf8(e.path) && |e.bytes| <= 0xFFFF_FFFF_FFFF_FFFF
  }

  lemma ReadIsTrusted(env: Env, e: Entry)
    ensures MayRead(env, e) <==> Trusted(env, e)
  {
    ProperExactly(e.path);
  }

  /** Bytes read as an entry and what follows it exactly if they are the entry's encoding and
      what follows, and the entry may be read. */
  lemma EntryReadsExactly(env: Env, rest: seq<byte>, e: Entry, tail: seq<byte>)
    ensures ReadEntry(env, rest) == Ok((e, tail)) <==> rest == EncodeEntry(env, e) + tail && MayRead(env, e)
  {
    ReadIsTrusted(env, e);
    if ReadEntry(env, rest) == Ok((e, tail)) { EntryWasEncoded(env, rest); }
    if Trusted(env, e) { ReadsBackEntry(env, e, tail); }
  }

  /** A path is refused as unsafe exactly if it is there whole, is a string and is not made of
      proper components; anything else that does not read is damaged. */
  lemma EntryRefusedExactly(env: Env, rest: seq<byte>, path: seq<byte>)
    ensures ReadEntry(env, rest) == Err(UnsafePath(path)) <==>
      && |rest| >= 4 + |path| && FourBytes(rest[..4]) == |path| && rest[4..4 + |path|] == path
      && env.utf8(path) && !ProperPath(path)
    ensures var r := ReadEntry(env, rest);
      r.Err? ==> r.error == Damaged || r.error.UnsafePath?
  {
    ProperExactly(path);
    if |rest| >= 4 { FromLeIsFourBytes(rest[..4]); }
  }

  /** What any file with the magic at its end reads as, by its trailer: another version is named,
      a region longer than what is there is damaged, and otherwise entries come out exactly if
      there are as many as declared, all may be read, and the region starts with their encoding. */
  lemma FileReadsExactly(env: Env, file: seq<byte>, entries: seq<Entry>)
    requires |file| >= 24 && file[|file| - 8..] == MAGIC
    ensures var end := |file| - 24;
      var n, count := EightBytes(file[end..end + 8]), FourBytes(file[end + 8..end + 12]);
      var version := FourBytes(file[end + 12..end + 16]);
      if version != 1 then ReadFile(env, file) == Err(UnknownFormat(version))
      else if n > end then ReadFile(env, file) == Err(Damaged)
      else ReadFile(env, file) == Ok(Some(entries)) <==>
        |entries| == count && (forall e <- entries :: MayRead(env, e)) && Encode(env, entries) <= file[end - n..end]
  {
    TrailerFields(file);
    var end := |file| - 24;
    var n, count := EightBytes(file[end..end + 8]), FourBytes(file[end + 8..end + 12]);
    if FourBytes(file[end + 12..end + 16]) == 1 && n <= end {
      RegionReadsExactly(env, file[end - n..end], count, entries);
    }
  }

  lemma TrailerFields(file: seq<byte>)
    requires |file| >= 24
    ensures var end, t := |file| - 24, file[|file| - 24..];
      && t[16..24] == file[|file| - 8..] && FromLe(t[0..8]) == EightBytes(file[end..end + 8])
      && FromLe(t[8..12]) == FourBytes(file[end + 8..end + 12])
      && FromLe(t[12..16]) == FourBytes(file[end + 12..end + 16])
  {
    var end, t := |file| - 24, file[|file| - 24..];
    assert t[0..8] == file[end..end + 8] && t[8..12] == file[end + 8..end + 12];
    assert t[12..16] == file[end + 12..end + 16] && t[16..24] == file[|file| - 8..];
    FromLeIsEightBytes(t[0..8]);
    FromLeIsFourBytes(t[8..12]);
    FromLeIsFourBytes(t[12..16]);
  }

  lemma RegionReadsExactly(env: Env, region: seq<byte>, count: nat, entries: seq<Entry>)
    ensures var r := ReadMany(EntryReader(env), region, count);
      r.Ok? && r.value.0 == entries <==>
        |entries| == count && (forall e <- entries :: MayRead(env, e)) && Encode(env, entries) <= region
  {
    forall e <- entries { ReadIsTrusted(env, e); }
    var r := ReadMany(EntryReader(env), region, count);
    if r.Ok? && r.value.0 == entries {
      EntriesWereEncoded(env, region, count);
    }
    if |entries| == count && (forall e <- entries :: MayRead(env, e)) && Encode(env, entries) <= region {
      EachReadsBack(env, entries);
      var tail := region[|Encode(env, entries)|..];
      ReadsBack(EntryReader(env), EntryWriter(env), entries, tail);
      assert region == Encode(env, entries) + tail;
    }
  }

  lemma EachReadsBack(env: Env, entries: seq<Entry>)
    requires forall e <- entries :: MayRead(env, e)
    ensures forall e <- entries, r: seq<byte> :: EntryReader(env)(EntryWriter(env)(e) + r) == Ok((e, r))
  {
    forall e <- entries, r: seq<byte>
      ensures EntryReader(env)(EntryWriter(env)(e) + r) == Ok((e, r))
    {
      ReadIsTrusted(env, e);
      ReadsBackEntry(env, e, r);
    }
  }

  /** The first entry that does not read decides the file's error. */
  lemma FirstBadEntryDecides(
      env: Env, file: seq<byte>, image: seq<byte>, count: nat, entries: seq<Entry>, rest: seq<byte>)
    requires Carries(file, image, Encode(env, entries) + rest, count) && |entries| < count
    requires (forall e <- entries :: MayRead(env, e)) && ReadEntry(env, rest).Err?
    ensures ReadFile(env, file) == Err(ReadEntry(env, rest).error)
  {
    EachReadsBack(env, entries);
    FailsAtFirst(EntryReader(env), EntryWriter(env), entries, rest, count);
    ReadCarried(env, file, image, Encode(env, entries) + rest, count);
  }

  // ---- files cut short ----

  /** A file reads as carrying nothing exactly if its last bytes are not the magic. */
  lemma AbsentExactly(env: Env, file: seq<byte>)
    ensures ReadFile(env, file) == Ok(None) <==>
      |file| < TRAILER_BYTES || file[|file| - |MAGIC|..] != MAGIC
  {
    if |file| >= TRAILER_BYTES {
      assert file[|file| - TRAILER_BYTES..][16..24] == file[|file| - |MAGIC|..];
    }
  }

  /** What a file cut off at `cut` reads as depends on the bytes right before the cut: absent
      unless they are the magic, refused unless a trailer before them describes a region
      that is there and reads, and otherwise accepted as that. */
  lemma CutFile(env: Env, file: seq<byte>, cut: nat)
    requires cut <= |file|
    ensures var r := ReadFile(env, file[..cut]);
      if cut < TRAILER_BYTES || file[cut - |MAGIC|..cut] != MAGIC then r == Ok(None)
      else
        var declared, count := FromLe(file[cut - 24..cut - 16]), FromLe(file[cut - 16..cut - 12]);
        var format := FromLe(file[cut - 12..cut - 8]);
        if format != FORMAT_VERSION then r == Err(UnknownFormat(format))
        else if declared > cut - TRAILER_BYTES then r == Err(Damaged)
        else
          var read := ReadMany(EntryReader(env), file[cut - 24 - declared..cut - 24], count);
          if read.Err? then r == Err(read.error) else r == Ok(Some(read.value.0))
  {
    var prefix := file[..cut];
    if cut >= TRAILER_BYTES {
      var end, trailer := cut - TRAILER_BYTES, prefix[cut - TRAILER_BYTES..];
      Within(file, cut, end, 0, 8);
      Within(file, cut, end, 8, 12);
      Within(file, cut, end, 12, 16);
      Within(file, cut, end, 16, 24);
      var declared := FromLe(trailer[0..8]);
      if declared <= end { assert prefix[end - declared..end] == file[end - declared..end]; }
    }
  }

  lemma Within(file: seq<byte>, cut: nat, end: nat, i: nat, j: nat)
    requires i <= j && end + j <= cut <= |file|
    ensures file[..cut][end..][i..j] == file[end + i..end + j]
  {
    assert file[..cut][end..] == file[end..cut];
    forall k | 0 <= k < j - i
      ensures file[end..cut][i..j][k] == file[end + i..end + j][k]
    {
    }
  }

  /** A download that lost its last few bytes, up to eleven, reads as carrying no payload at
      all: it is not refused. */
  lemma ShortCutIsAbsent(env: Env, host: seq<byte>, entries: seq<Entry>, lost: nat)
    requires Append(env, host, entries).Ok? && 1 <= lost <= 11
    ensures var file := Append(env, host, entries).value;
      lost < |file| && ReadFile(env, file[..|file| - lost]) == Ok(None)
  {
    var archive := Encode(env, entries);
    ShortCut(env, host + archive, |archive|, |entries|, lost);
  }

  lemma ShortCut(env: Env, base: seq<byte>, declared: nat, count: nat, lost: nat)
    requires 1 <= lost <= 11
    ensures ReadFile(env, (base + Trailer(declared, count))[..|base| + TRAILER_BYTES - lost]) == Ok(None)
  {
    NoMagicInside(base, declared, count, lost);
    AbsentExactly(env, (base + Trailer(declared, count))[..|base| + TRAILER_BYTES - lost]);
  }

  lemma NoMagicInside(base: seq<byte>, declared: nat, count: nat, lost: nat)
    requires 1 <= lost <= 11
    ensures var prefix := (base + Trailer(declared, count))[..|base| + TRAILER_BYTES - lost];
      prefix[|prefix| - |MAGIC|..] != MAGIC
  {
    var trailer := Trailer(declared, count);
    var prefix := (base + trailer)[..|base| + TRAILER_BYTES - lost];
    assert trailer[12..16] == Le(FORMAT_VERSION, 4) && trailer[12] == Le(FORMAT_VERSION, 4)[0];
    if lost <= 7 {
      assert trailer[16] == MAGIC[0] && prefix[|base| + 16] == trailer[16];
      assert prefix[|prefix| - |MAGIC|..][lost] != MAGIC[lost];
    } else {
      assert prefix[|base| + 12] == trailer[12] == 1;
      assert prefix[|prefix| - |MAGIC|..][lost - 4] != MAGIC[lost - 4];
    }
  }

  /** A setup packed onto one that already carried a payload, cut where the new part begins,
      reads as the old one. */
  lemma OldPayloadResurfaces(env: Env, host: seq<byte>, previous: seq<Entry>, entries: seq<Entry>)
    requires Representable(env, previous) && Append(env, host, previous).Ok?
    requires Append(env, Append(env, host, previous).value, entries).Ok?
    ensures var before := Append(env, host, previous).value;
      var file := Append(env, before, entries).value;
      |before| < |file| && ReadFile(env, file[..|before|]) == Ok(Some(previous))
  {
    var before := Append(env, host, previous).value;
    ReadUndoesAppend(env, host, previous);
    StartsWith(before, Encode(env, entries), Trailer(|Encode(env, entries)|, |entries|));
    assert Append(env, before, entries).value[..|before|] == before;
  }

  /** A download that kept its trailer but lost so much that the region it declares is no longer
      all there is refused as damaged. */
  lemma MissingBytesAreRefused(env: Env, rest: seq<byte>, declared: nat, count: nat)
    requires |rest| < declared <= U64_MAX && count <= U32_MAX
    ensures ReadFile(env, rest + Trailer(declared, count)) == Err(Damaged)
  {
    WidthsFit();
    LeRoundTrip(declared, 8);
    LeRoundTrip(FORMAT_VERSION, 4);
    var file, trailer := rest + Trailer(declared, count), Trailer(declared, count);
    assert file[|file| - TRAILER_BYTES..] == trailer;
    assert trailer[0..8] == Le(declared, 8) && trailer[12..16] == Le(FORMAT_VERSION, 4);
    assert trailer[16..24] == MAGIC;
  }

  lemma SameAppend(env: Env, file: seq<byte>, image: seq<byte>, region: seq<byte>, entries: seq<Entry>)
    requires Carries(file, image, region, |entries|) && FirstRefusal(entries).None?
    ensures Append(env, image, entries) == Ok(file) <==> Encode(env, entries) == region
  {
    var archive := Encode(env, entries);
    if Append(env, image, entries) == Ok(file) {
      assert |image + archive + Trailer(|archive|, |entries|)| == |image + region + Trailer(|region|, |entries|)|;
      assert file[|image|..|image| + |region|] == region;
      assert file[|image|..|image| + |archive|] == archive;
    }
  }

  lemma InThree(file: seq<byte>, i: nat, j: nat)
    requires i <= j <= |file|
    ensures file == file[..i] + file[i..j] + file[j..]
  {
  }

  lemma TrailerParts(trailer: seq<byte>)
    requires |trailer| == TRAILER_BYTES
    ensures trailer == trailer[0..8] + trailer[8..12] + trailer[12..16] + trailer[16..24]
  {
  }

  /** A file whose trailer is accepted is laid out as that trailer says. */
  lemma Dissect(file: seq<byte>) returns (image: seq<byte>, region: seq<byte>, count: nat)
    requires |file| >= TRAILER_BYTES
    requires var trailer := file[|file| - TRAILER_BYTES..];
      && trailer[16..24] == MAGIC && FromLe(trailer[12..16]) == FORMAT_VERSION
      && FromLe(trailer[0..8]) <= |file| - TRAILER_BYTES
    ensures Carries(file, image, region, count)
  {
    WidthsFit();
    var end := |file| - TRAILER_BYTES;
    var trailer := file[end..];
    FromLeRoundTrip(trailer[0..8]);
    FromLeRoundTrip(trailer[8..12]);
    FromLeRoundTrip(trailer[12..16]);
    TrailerParts(trailer);
    var start := end - FromLe(trailer[0..8]);
    image, region, count := file[..start], file[start..end], FromLe(trailer[8..12]);
    assert |region| == FromLe(trailer[0..8]);
    InThree(file, start, end);
  }

  // ---- paths ----

  /** Where a path leads from a root, its components taken as they are written. */
  datatype Place = Inside(components: seq<seq<byte>>) | Outside

  const DOT: seq<byte> := [0x2E]

  function Walk(parts: seq<seq<byte>>, at: seq<seq<byte>>): Place {
    if parts == [] then Inside(at)
    else if parts[0] == [] || parts[0] == DOT then Walk(parts[1..], at)
    else if parts[0] == DOT_DOT then
      if at == [] then Outside else Walk(parts[1..], at[..|at| - 1])
    else Walk(parts[1..], at + [parts[0]])
  }

  function IsSeparator(): byte -> bool { (c: byte) => c == SLASH || c == BACKSLASH }

  /** A drive, stream or root prefix makes joining replace the root altogether. */
  predicate ReplacesRoot(path: seq<byte>) {
    COLON in path || (path != [] && IsSeparator()(path[0]))
  }

  lemma {:induction false} WalkStaysInside(parts: seq<seq<byte>>, at: seq<seq<byte>>)
    requires DOT_DOT !in parts
    ensures Walk(parts, at).Inside? && at <= Walk(parts, at).components
  {
    if parts != [] {
      WalkStaysInside(parts[1..], at);
      WalkStaysInside(parts[1..], at + [parts[0]]);
    }
  }

  /** An accepted path never replaces the root and never climbs above it, from any
      directory it is joined to. */
  lemma SafePathStaysInside(path: seq<byte>, root: seq<seq<byte>>)
    requires CheckedRelativePath(path).Ok?
    ensures !ReplacesRoot(path)
    ensures var place := Walk(Split(path, IsSeparator()), root); place.Inside? && root <= place.components
  {
    SplitAgrees(path, IsSlash(), IsSeparator());
    WalkStaysInside(Split(path, IsSlash()), root);
  }
}
