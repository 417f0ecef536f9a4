/** Registry operations on disk: load, save, import and resolution of a model id. */
module RegistryStore {
  import opened Wrappers
  import opened TextCodec
  import opened FileSystem
  import opened Registry
  import opened ModelVerifier
  import opened DigestText
  import Gguf = GgufFormat
  import GgufMetadata
  import GgufReader
  import GgufReports
  import Sha256Spec
  import Sha256Theorems

  method Load(disk: Disk, path: string) returns (loaded: Loaded)
    ensures loaded == LoadText(Get(disk.files, path))
  {
    hide MAGIC, EntryOfFields, KnownKey;
    if path !in disk.files {
      return Loaded(NotFound, []);
    }
    var lines := Lines(disk.files[path]);
    if |lines| == 0 || lines[0] != MAGIC {
      return Loaded(Corrupted, []);
    }
    var fields: Fields := map[];
    var entries: seq<Entry> := [];
    for i := 1 to |lines|
      invariant ReadLines(lines[1..], map[], []) == ReadLines(lines[i..], fields, entries)
    {
      var line := lines[i];
      assert lines[i..][1..] == lines[i + 1..];
      if line == "" {
        var flushed := Flush(fields, entries);
        if flushed.result != Ok {
          return flushed;
        }
        fields, entries := map[], flushed.entries;
      } else {
        var eq := Find(line, '=');
        if eq == |line| || eq == 0 || !KnownKey(line[..eq]) {
          return Loaded(Corrupted, entries);
        }
        fields := fields[line[..eq] := line[eq + 1..]];
      }
    }
    loaded := Flush(fields, entries);
  }

  /** The ten lines of one entry, streamed with their blank line. */
  method EntryToLines(e: Entry) returns (out: string)
    ensures out == Unlines(EntryLines(e))
  {
    hide MODEL_ID, DISPLAY_NAME, LOCAL_PATH, FILE_SIZE, FORMAT;
    hide ARCHITECTURE, QUANTIZATION, STATUS, VERIFIED_AT, CHECKSUM;
    hide Encoded, PrintNat, PrintInt, Line;
    var id := PercentEncode(e.modelId);
    var name := PercentEncode(e.displayName);
    var path := PercentEncode(e.localPath);
    var format := PercentEncode(e.format);
    var architecture := PercentEncode(e.architecture);
    var quantization := PercentEncode(e.quantization);
    var checksum := PercentEncode(e.checksum);
    out := Five(Line(MODEL_ID, id), Line(DISPLAY_NAME, name), Line(LOCAL_PATH, path),
                Line(FILE_SIZE, PrintNat(e.fileSize)), Line(FORMAT, format))
           + Five(Line(ARCHITECTURE, architecture), Line(QUANTIZATION, quantization), Line(STATUS, PrintNat(e.status)),
                  Line(VERIFIED_AT, PrintInt(e.verifiedAt)), Line(CHECKSUM, checksum))
           + "\n";
    UnlinesAppend(FirstLines(e), LastLines(e));
    UnlinesAppend(FirstLines(e) + LastLines(e), [""]);
    OneBlankLine();
    hide Five;
  }

  /** Five lines, each with its newline. */
  function Five(a: string, b: string, c: string, d: string, e: string): (r: string)
    ensures r == Unlines([a, b, c, d, e])
  {
    UnlinesOfFive(a, b, c, d, e);
    a + "\n" + (b + "\n" + (c + "\n" + (d + "\n" + (e + "\n"))))
  }

  lemma UnlinesOfFive(a: string, b: string, c: string, d: string, e: string)
    ensures Unlines([a, b, c, d, e]) == a + "\n" + (b + "\n" + (c + "\n" + (d + "\n" + (e + "\n"))))
  {
    var l := [a, b, c, d, e];
    assert l[1..] == [b, c, d, e] && [b, c, d, e][1..] == [c, d, e] && [c, d, e][1..] == [d, e] && [d, e][1..] == [e];
    assert Unlines([e]) == e + "\n" + Unlines([]);
    assert Unlines([d, e]) == d + "\n" + (e + "\n");
    assert Unlines([c, d, e]) == c + "\n" + (d + "\n" + (e + "\n"));
    assert Unlines([b, c, d, e]) == b + "\n" + (c + "\n" + (d + "\n" + (e + "\n")));
  }

  lemma OneBlankLine()
    ensures Unlines([""]) == "\n"
  {
    assert Unlines([""]) == "" + "\n" + Unlines([]);
  }

  predicate AllNamed(entries: seq<Entry>) { forall e :: e in entries ==> e.modelId != "" }

  /** Persists the list through a temporary file; an entry without an id stops the save before the rename. */
  method Save(disk: Disk, path: string, entries: seq<Entry>, io: Io) returns (ok: bool)
    requires forall i :: 0 <= i < |entries| ==> entries[i].InRange()
    modifies disk
    ensures ok <==> AllNamed(entries) && io.Works()
    ensures LoadText(Get(disk.files, path)) == if ok then Loaded(Ok, entries) else LoadText(Get(old(disk.files), path))
    ensures AllNamed(entries) ==> disk.files == SavedFiles(old(disk.files), path, RegistryText(entries), false, io)
    ensures OnlyTouches(old(disk.files), disk.files, path)
    ensures forall d :: d in disk.states && d !in old(disk.states) ==>
                          if AllNamed(entries) then CrashSafe(old(disk.files), d, path, RegistryText(entries), false)
                          else Get(d, path) == Get(old(disk.files), path)
  {
    hide LoadText, EntryLines, MAGIC, SavedFiles;
    var text := MAGIC + "\n";
    HeaderText();
    for i := 0 to |entries|
      invariant disk.files == old(disk.files) && disk.states == old(disk.states)
      invariant text == RegistryText(entries[..i])
      invariant forall j :: 0 <= j < i ==> entries[j].modelId != ""
    {
      if entries[i].modelId == "" {
        SavedFilesAt(disk.files, path, text, true, io);
        ok := disk.Replace(path, text, true, io);
        return;
      }
      var lines := EntryToLines(entries[i]);
      OneMoreEntry(entries[..i], entries[i]);
      assert entries[..i] + [entries[i]] == entries[..i + 1];
      text := text + lines;
    }
    assert entries[..|entries|] == entries && text == RegistryText(entries);
    LoadOfRegistryText(entries);
    SavedFilesAt(disk.files, path, text, false, io);
    ok := disk.Replace(path, text, false, io);
  }

  lemma HeaderText()
    ensures RegistryText([]) == MAGIC + "\n"
  {
    assert [MAGIC] + EntriesLines([]) == [MAGIC];
    assert Unlines([MAGIC]) == MAGIC + "\n" + Unlines([]);
  }

  lemma OneMoreEntry(entries: seq<Entry>, e: Entry)
    ensures RegistryText(entries + [e]) == RegistryText(entries) + Unlines(EntryLines(e))
  {
    hide MAGIC, EntryLines;
    assert (entries + [e])[..|entries|] == entries;
    UnlinesAppend([MAGIC] + EntriesLines(entries), EntryLines(e));
    assert [MAGIC] + EntriesLines(entries + [e]) == [MAGIC] + EntriesLines(entries) + EntryLines(e);
  }

  /** A load after a crash during a save sees the old registry or the new one. */
  lemma CrashedSavesLoadOldOrNew(before: Files, after: Files, path: string, entries: seq<Entry>)
    requires Storable(entries) && CrashSafe(before, after, path, RegistryText(entries), false)
    ensures LoadText(Get(after, path)) in {LoadText(Get(before, path)), Loaded(Ok, entries)}
  {
    LoadOfRegistryText(entries);
  }

  // ---------- Import ----------

  /** The label of a quantization file type. */
  type FileTypeName = nat -> string

  function ImportedEntry(v: VerificationResult, modelPath: string, checksum: string, size: Option<nat>, now: int,
                         ftypeName: FileTypeName): Entry {
    Entry(v.identity.sha256Hex, v.metadata.name.UnwrapOr(modelPath), modelPath, size.UnwrapOr(0),
          "gguf", v.metadata.architecture.UnwrapOr(""),
          if v.metadata.fileType.Some? then ftypeName(v.metadata.fileType.value) else "",
          v.status.Number(), now, checksum)
  }

  /** What is recorded of a file that begins with the encoding of a key-value list. */
  ghost predicate Records(e: Entry, content: string, kvs: seq<Gguf.KV>, modelPath: string, checksum: string,
                          size: Option<nat>, now: int, ftypeName: FileTypeName)
  {
    && ReadDigest(e.modelId) == Some(HashOf(content)) && LowerCaseText(e.modelId)
    && e.displayName == (match GgufMetadata.LastText(kvs, "general.name")
                         case Some(name) => name
                         case None => modelPath)
    && e.localPath == modelPath && e.format == "gguf"
    && e.fileSize == (match size case Some(n) => n case None => 0)
    && e.architecture == (match GgufMetadata.LastText(kvs, "general.architecture")
                          case Some(a) => a
                          case None => "")
    && e.quantization == (match GgufMetadata.LastNumber(kvs, "general.file_type", {4, 5})
                          case Some(t) => ftypeName(t)
                          case None => "")
    && e.status == (if checksum == "" || ReadDigest(checksum) == Some(HashOf(content)) then 10 else 9)
    && e.verifiedAt == now && e.checksum == checksum
  }

  lemma ImportedEntryRecords(content: string, version: nat, tensorCount: nat, kvs: seq<Gguf.KV>, modelPath: string,
                             checksum: string, size: Option<nat>, now: int, ftypeName: FileTypeName)
    requires Gguf.WellFormedFile(version, tensorCount, kvs) && Gguf.EncodeFile(version, tensorCount, kvs) <= content
    ensures Records(ImportedEntry(ResultOf(Regular(content), checksum), modelPath, checksum, size, now, ftypeName),
                    content, kvs, modelPath, checksum, size, now, ftypeName)
  {
    hide Gguf.WellFormedFile, Gguf.EncodeFile, GgufMetadata.LastText, GgufMetadata.LastNumber, GgufReader.Verdict;
    hide ReadDigest, LowerCaseText, Lower, Sha256Spec.HexDigest, Sha256Spec.HashBlocks, Sha256Spec.Pad, ToBytes;
    GgufReports.MetadataOfEncoded(content, version, tensorCount, kvs);
    ReadsAsExactly(checksum, HashOf(content));
    DigestRead(HashOf(content));
  }

  /** The list after importing e: the first entry with its id is overwritten, or e goes last. */
  function Upsert(entries: seq<Entry>, e: Entry): seq<Entry> {
    if entries == [] then [e]
    else if entries[0].modelId == e.modelId then [e] + entries[1..]
    else [entries[0]] + Upsert(entries[1..], e)
  }

  predicate HasId(entries: seq<Entry>, id: string) { exists e :: e in entries && e.modelId == id }

  /** Overwrites in place or appends. */
  method UpsertEntry(entries: seq<Entry>, e: Entry) returns (r: seq<Entry>, isNew: bool)
    ensures r == Upsert(entries, e) && (isNew <==> !HasId(entries, e.modelId))
  {
    for i := 0 to |entries|
      invariant forall j :: 0 <= j < i ==> entries[j].modelId != e.modelId
      invariant Upsert(entries, e) == entries[..i] + Upsert(entries[i..], e)
    {
      if entries[i].modelId == e.modelId {
        assert entries[..i] + ([e] + entries[i..][1..]) == entries[i := e];
        assert entries[i] in entries;
        return entries[i := e], false;
      }
      assert entries[i..][1..] == entries[i + 1..];
      assert entries[..i] + ([entries[i]] + Upsert(entries[i + 1..], e))
          == entries[..i + 1] + Upsert(entries[i + 1..], e);
    }
    assert entries[..|entries|] == entries;
    return entries + [e], true;
  }

  /** The registry after an import: unchanged without an identity, when it cannot be trusted, or when the save fails. */
  function AfterImport(stored: Loaded, v: VerificationResult, e: Entry, saved: bool): Loaded {
    if v.identity.computed && stored.result != Corrupted && saved then Loaded(Ok, Upsert(stored.entries, e)) else stored
  }

  /** The files after an import. */
  function ImportFiles(files: Files, registryPath: string, modelPath: string, file: PathState, checksum: string,
                       hashFails: Option<nat>, size: Option<nat>, now: int, ftypeName: FileTypeName, io: Io): Files {
    var stored := LoadText(Get(files, registryPath));
    if !Identifies(file, hashFails) || stored.result == Corrupted then files
    else
      var e := ImportedEntry(ResultOf(file, checksum), modelPath, checksum, size, now, ftypeName);
      SavedFiles(files, registryPath, RegistryText(Upsert(stored.entries, e)), false, io)
  }

  lemma ImportTouches(files: Files, registryPath: string, modelPath: string, file: PathState, checksum: string,
                      hashFails: Option<nat>, size: Option<nat>, now: int, ftypeName: FileTypeName, io: Io)
    ensures OnlyTouches(files, ImportFiles(files, registryPath, modelPath, file, checksum, hashFails, size, now,
                                           ftypeName, io), registryPath)
  {
    hide LoadText, ImportedEntry, ResultOf, RegistryText, Upsert, Identifies, SavedFiles;
    var stored := LoadText(Get(files, registryPath));
    var e := ImportedEntry(ResultOf(file, checksum), modelPath, checksum, size, now, ftypeName);
    SavedFilesAt(files, registryPath, RegistryText(Upsert(stored.entries, e)), false, io);
  }

  /** Verifies a file and records it under its content hash. size is what the size probe reports. */
  method ImportModel(disk: Disk, registryPath: string, modelPath: string, file: PathState, checksum: string,
                     hashFails: Option<nat>, size: Option<nat>, now: int, ftypeName: FileTypeName, io: Io)
    returns (v: VerificationResult, isNew: bool)
    requires (size.Some? ==> size.value <= MAX_U64) && MIN_I64 <= now <= MAX_I64
    modifies disk
    ensures hashFails.None? || v.identity.computed ==> v == ResultOf(file, checksum)
    ensures v.status == Verified <==> Passes(file, checksum, hashFails)
    ensures v.identity.computed <==> Identifies(file, hashFails)
    ensures v.status == Verified ==> v.identity.computed
    ensures v.identity.computed ==> file.Regular? && v.identity.sha256Hex == Identity(file.content)
    ensures disk.files == ImportFiles(old(disk.files), registryPath, modelPath, file, checksum, hashFails, size, now,
                                      ftypeName, io)
    ensures OnlyTouches(old(disk.files), disk.files, registryPath)
    ensures var stored := LoadText(Get(old(disk.files), registryPath));
            var e := ImportedEntry(v, modelPath, checksum, size, now, ftypeName);
            && LoadText(Get(disk.files, registryPath)) == AfterImport(stored, v, e, io.Works())
            && (isNew <==> v.identity.computed && stored.result != Corrupted && !HasId(stored.entries, e.modelId))
  {
    hide LoadText, Upsert, HasId, RegistryText, CrashSafe, ResultOf, Identity, SavedFiles;
    v := Verify(file, checksum, hashFails);
    isNew := false;
    if !v.identity.computed {
      return;
    }
    assert file.Regular?;
    hide Passes, Identifies;
    var loaded := Load(disk, registryPath);
    if loaded.result == Corrupted {
      return;
    }
    LoadedEntriesAreStorable(Get(disk.files, registryPath));
    var e := ImportedEntry(v, modelPath, checksum, size, now, ftypeName);
    var entries;
    entries, isNew := UpsertEntry(loaded.entries, e);
    IdentityIsNotEmpty(file.content);
    UpsertIsStorable(loaded.entries, e);
    assert AllNamed(entries);
    var _ := Save(disk, registryPath, entries, io);
  }

  lemma IdentityIsNotEmpty(content: string)
    ensures |Identity(content)| == 64
  {
  }

  lemma {:induction false} UpsertIsStorable(entries: seq<Entry>, e: Entry)
    requires Storable(entries) && e.InRange() && e.modelId != ""
    ensures Storable(Upsert(entries, e))
  {
    if entries != [] {
      UpsertIsStorable(entries[1..], e);
    }
  }

  lemma {:induction false} UpsertContains(entries: seq<Entry>, e: Entry)
    ensures e in Upsert(entries, e)
  {
    if entries != [] {
      UpsertContains(entries[1..], e);
    }
  }

  // ---------- Resolution ----------

  datatype Resolution = Resolved(path: string) | NeitherProvided | BothProvided | ModelIdNotFound | RegistryUnreadable

  /** The first entry with this id. */
  function FindEntry(entries: seq<Entry>, id: string): Option<Entry> {
    if entries == [] then None else if entries[0].modelId == id then Some(entries[0]) else FindEntry(entries[1..], id)
  }

  /** Exactly one selector resolves: a path to itself, an id to the path stored for it. */
  function ResolutionOf(modelPath: string, modelId: string, stored: Loaded): Resolution {
    if modelPath == "" && modelId == "" then NeitherProvided
    else if modelPath != "" && modelId != "" then BothProvided
    else if modelPath != "" then Resolved(modelPath)
    else if stored.result == Corrupted then RegistryUnreadable
    else match FindEntry(stored.entries, modelId)
         case None => ModelIdNotFound
         case Some(e) => Resolved(e.localPath)
  }

  method ResolveModelPath(disk: Disk, modelPath: string, modelId: string, registryPath: string) returns (r: Resolution)
    ensures r == ResolutionOf(modelPath, modelId, LoadText(Get(disk.files, registryPath)))
  {
    hide LoadText;
    if modelPath == "" && modelId == "" {
      return NeitherProvided;
    }
    if modelPath != "" && modelId != "" {
      return BothProvided;
    }
    if modelPath != "" {
      return Resolved(modelPath);
    }
    var loaded := Load(disk, registryPath);
    if loaded.result == Corrupted {
      return RegistryUnreadable;
    }
    var entries := loaded.entries;
    for i := 0 to |entries|
      invariant FindEntry(entries, modelId) == FindEntry(entries[i..], modelId)
    {
      if entries[i].modelId == modelId {
        return Resolved(entries[i].localPath);
      }
    }
    return ModelIdNotFound;
  }

  /** After an import whose save works, the registry loads, and looking the file's identity up finds what is recorded of
      it. */
  lemma ImportIsFound(files: Files, registryPath: string, modelPath: string, content: string, version: nat,
                      tensorCount: nat, kvs: seq<Gguf.KV>, checksum: string, hashFails: Option<nat>,
                      size: Option<nat>, now: int, ftypeName: FileTypeName, io: Io) returns (e: Entry)
    requires Gguf.WellFormedFile(version, tensorCount, kvs) && Gguf.EncodeFile(version, tensorCount, kvs) <= content
    requires hashFails.None? || hashFails.value > |content| / Sha256Theorems.CHUNK_BYTES
    requires (size.Some? ==> size.value <= MAX_U64) && MIN_I64 <= now <= MAX_I64
    requires LoadText(Get(files, registryPath)).result != Corrupted && io.Works()
    ensures var after := ImportFiles(files, registryPath, modelPath, Regular(content), checksum, hashFails, size, now,
                                     ftypeName, io);
            && LoadText(Get(after, registryPath)).result == Ok
            && FindEntry(LoadText(Get(after, registryPath)).entries, e.modelId) == Some(e)
            && Records(e, content, kvs, modelPath, checksum, size, now, ftypeName)
  {
    hide LoadText, Records, RegistryText, ReadDigest, Gguf.WellFormedFile, Gguf.EncodeFile, Sha256Spec.Sha256Hex;
    hide GgufReader.Verdict, Storable, Upsert, FindEntry, SavedFiles, Lower;
    GgufReports.MetadataOfEncoded(content, version, tensorCount, kvs);
    var v, stored := ResultOf(Regular(content), checksum), LoadText(Get(files, registryPath));
    e := ImportedEntry(v, modelPath, checksum, size, now, ftypeName);
    ImportedEntryRecords(content, version, tensorCount, kvs, modelPath, checksum, size, now, ftypeName);
    IdentityIsNotEmpty(content);
    LoadedEntriesAreStorable(Get(files, registryPath));
    UpsertIsStorable(stored.entries, e);
    UpsertLookup(stored.entries, e, e.modelId);
    LoadOfRegistryText(Upsert(stored.entries, e));
    SavedFilesAt(files, registryPath, RegistryText(Upsert(stored.entries, e)), false, io);
  }

  // ---------- Sequences of imports ----------

  function ImportAll(imports: seq<Entry>): seq<Entry> {
    if imports == [] then [] else Upsert(ImportAll(imports[..|imports| - 1]), imports[|imports| - 1])
  }

  /** The most recent import of an id. */
  function LastImport(imports: seq<Entry>, id: string): Option<Entry> {
    if imports == [] then None
    else
      var last := imports[|imports| - 1];
      if last.modelId == id then Some(last) else LastImport(imports[..|imports| - 1], id)
  }

  function Ids(entries: seq<Entry>): (ids: seq<string>)
    ensures |ids| == |entries| && forall i :: 0 <= i < |ids| ==> ids[i] == entries[i].modelId
  {
    if entries == [] then [] else [entries[0].modelId] + Ids(entries[1..])
  }

  /** The distinct ids in the order they were first imported. */
  function FirstImports(imports: seq<Entry>): seq<string> {
    if imports == [] then []
    else
      var before, id := FirstImports(imports[..|imports| - 1]), imports[|imports| - 1].modelId;
      if id in before then before else before + [id]
  }

  lemma {:induction false} UpsertIds(entries: seq<Entry>, e: Entry)
    ensures Ids(Upsert(entries, e)) == if e.modelId in Ids(entries) then Ids(entries) else Ids(entries) + [e.modelId]
  {
    if entries != [] {
      var rest := entries[1..];
      UpsertIds(rest, e);
      assert ([e] + rest)[1..] == rest && ([entries[0]] + Upsert(rest, e))[1..] == Upsert(rest, e);
    }
  }

  lemma {:induction false} UpsertLookup(entries: seq<Entry>, e: Entry, id: string)
    ensures FindEntry(Upsert(entries, e), id) == if id == e.modelId then Some(e) else FindEntry(entries, id)
  {
    if entries != [] {
      UpsertLookup(entries[1..], e, id);
    }
  }

  /** The list upsert refines a finite map: ids are distinct and in first-import order, and looking one up gives
      its most recent import. */
  lemma {:induction false} ImportsRefineMap(imports: seq<Entry>, id: string)
    ensures var r := ImportAll(imports);
            && Ids(r) == FirstImports(imports)
            && (forall i, j :: 0 <= i < j < |r| ==> r[i].modelId != r[j].modelId)
            && FindEntry(r, id) == LastImport(imports, id)
  {
    if imports != [] {
      var before, e := imports[..|imports| - 1], imports[|imports| - 1];
      ImportsRefineMap(before, id);
      UpsertIds(ImportAll(before), e);
      UpsertLookup(ImportAll(before), e, id);
      var ids, oldIds := Ids(ImportAll(imports)), Ids(ImportAll(before));
      assert forall i, j :: 0 <= i < j < |oldIds| ==> oldIds[i] != oldIds[j];
      assert forall i, j :: 0 <= i < j < |ids| ==> ids[i] != ids[j];
    }
  }

  datatype Import = Import(modelPath: string, content: string, checksum: string, now: int, io: Io)

  /** A readable model file with a valid structure, whose entry is saved. */
  ghost predicate Successful(i: Import) {
    && |i.content| <= MAX_U64 && MIN_I64 <= i.now <= MAX_I64 && i.io.Works()
    && ResultOf(Regular(i.content), i.checksum).identity.computed
  }

  function EntryOf(i: Import, ftypeName: FileTypeName): Entry {
    ImportedEntry(ResultOf(Regular(i.content), i.checksum), i.modelPath, i.checksum, Some(|i.content|), i.now,
                  ftypeName)
  }

  /** The path of the most recent import of a file with this content hash. */
  function LastPath(imports: seq<Import>, id: string): Option<string> {
    if imports == [] then None
    else
      var last := imports[|imports| - 1];
      if Identity(last.content) == id then Some(last.modelPath) else LastPath(imports[..|imports| - 1], id)
  }

  function EntriesOf(imports: seq<Import>, ftypeName: FileTypeName): (r: seq<Entry>)
    ensures |r| == |imports| && forall i :: 0 <= i < |r| ==> r[i] == EntryOf(imports[i], ftypeName)
  {
    seq(|imports|, i requires 0 <= i < |imports| => EntryOf(imports[i], ftypeName))
  }

  lemma SuccessfulEntry(i: Import, ftypeName: FileTypeName)
    requires Successful(i)
    ensures EntryOf(i, ftypeName).modelId == Identity(i.content) && EntryOf(i, ftypeName).localPath == i.modelPath
  {
    hide ResultOf, Identity;
    ComputedIdentity(i.content, i.checksum);
  }

  lemma {:induction false} LastImportIsLastPath(imports: seq<Import>, id: string, ftypeName: FileTypeName)
    requires forall i :: 0 <= i < |imports| ==> Successful(imports[i])
    ensures match (LastImport(EntriesOf(imports, ftypeName), id), LastPath(imports, id))
            case (Some(e), Some(path)) => e.localPath == path
            case (None, None) => true
            case _ => false
  {
    hide EntryOf, Identity;
    if imports != [] {
      var n := |imports| - 1;
      SuccessfulEntry(imports[n], ftypeName);
      LastImportIsLastPath(imports[..n], id, ftypeName);
      assert EntriesOf(imports, ftypeName)[..n] == EntriesOf(imports[..n], ftypeName);
    }
  }

  /** From an absent registry, after any successful imports: resolving a content hash gives the path of the last
      file imported with that content, and a hash never imported is not found. */
  method RunImports(disk: Disk, path: string, imports: seq<Import>, ftypeName: FileTypeName, id: string)
    returns (r: Resolution)
    requires path !in disk.files && id != ""
    requires forall i :: 0 <= i < |imports| ==> Successful(imports[i])
    modifies disk
    ensures r == match LastPath(imports, id)
                 case None => ModelIdNotFound
                 case Some(p) => Resolved(p)
    ensures LoadText(Get(disk.files, path)).entries == ImportAll(EntriesOf(imports, ftypeName))
  {
    hide LoadText, ImportedEntry, ResultOf, Identity, ImportFiles, Passes, Identifies, OnlyTouches;
    ghost var entries := EntriesOf(imports, ftypeName);
    AbsentRegistry(disk.files, path);
    for i := 0 to |imports|
      invariant var stored := LoadText(Get(disk.files, path));
                stored.result != Corrupted && stored.entries == ImportAll(entries[..i])
    {
      var m := imports[i];
      var _, _ := ImportModel(disk, path, m.modelPath, Regular(m.content), m.checksum, None, Some(|m.content|), m.now,
                              ftypeName, m.io);
      assert entries[..i + 1][..i] == entries[..i];
    }
    assert entries[..|imports|] == entries;
    ImportsRefineMap(entries, id);
    LastImportIsLastPath(imports, id, ftypeName);
    r := ResolveModelPath(disk, "", id, path);
  }

  lemma AbsentRegistry(files: Files, path: string)
    requires path !in files
    ensures LoadText(Get(files, path)) == Loaded(NotFound, [])
  {
  }
}
