/** What a load leaves behind when the registry file and the usage file share a name, or one is the other's temporary
    file. The configuration check accepts all three cases. */
module Overlap {
  import opened Wrappers
  import opened TextCodec
  import opened FileSystem
  import opened UsageTypes
  import opened UsageStore
  import opened UsageManager
  import opened Runtime
  import GgufFormat
  import GgufTheorems
  import Inference
  import Memory
  import ModelVerifier
  import Quota
  import Registry
  import RegistryStore

  // ---------- One file's text read as the other's ----------

  lemma FirstLineIsPrefix(text: string)
    requires Lines(text) != []
    ensures Lines(text)[0] <= text
  {
  }

  /** The two magic lines part at their fourteenth character. */
  lemma MagicLines()
    ensures |UsageStore.MAGIC| > 13 && UsageStore.MAGIC[13] == 'U'
    ensures |Registry.MAGIC| > 13 && Registry.MAGIC[13] == 'M'
  {
  }

  lemma OtherMagic(text: string)
    ensures |text| <= 13 || text[13] != 'U' ==> UsageStore.LoadText(Some(text)) == UsageStore.Loaded(Corrupted, FRESH)
    ensures |text| <= 13 || text[13] != 'M' ==>
              Registry.LoadText(Some(text)) == Registry.Loaded(Registry.Corrupted, [])
  {
    MagicLines();
    hide UsageStore.MAGIC, Registry.MAGIC, Lines;
    if Lines(text) != [] {
      FirstLineIsPrefix(text);
    }
  }

  lemma RegistryTextStarts(entries: seq<Registry.Entry>)
    ensures var t := Registry.RegistryText(entries); |t| > 13 && t[13] == 'M'
  {
    MagicLines();
    hide Registry.MAGIC;
    var lines := [Registry.MAGIC] + Registry.EntriesLines(entries);
    assert Unlines(lines) == Registry.MAGIC + "\n" + Unlines(lines[1..]);
  }

  lemma StateTextStarts(s: UsageState)
    ensures |StateText(s)| > 13 && StateText(s)[13] == 'U'
  {
    MagicLines();
    hide UsageStore.MAGIC;
    var lines := StateLines(s);
    assert Unlines(lines) == UsageStore.MAGIC + "\n" + Unlines(lines[1..]);
  }

  /** A usage file that holds a registry, or part of one, is corrupt, and no load or generation is admitted. */
  lemma SharedFileIsCorrupted(entries: seq<Registry.Entry>, part: string)
    requires part <= Registry.RegistryText(entries)
    ensures UsageStore.LoadText(Some(part)) == UsageStore.Loaded(Corrupted, FRESH)
    ensures forall p, now, io :: !Quota.Admits(p, UsageStore.LoadText(Some(part)), now, io)
  {
    hide UsageStore.LoadText, Registry.LoadText, Registry.RegistryText;
    RegistryTextStarts(entries);
    OtherMagic(part);
  }

  /** No part of a usage file loads as a registry. */
  lemma UsageIsNoRegistry(s: UsageState, part: string)
    requires part <= StateText(s)
    ensures Registry.LoadText(Some(part)) == Registry.Loaded(Registry.Corrupted, [])
  {
    hide UsageStore.LoadText, Registry.LoadText, StateText;
    StateTextStarts(s);
    OtherMagic(part);
  }

  /** No file loads as both. */
  lemma NeverBoth(file: Option<string>)
    ensures UsageStore.LoadText(file).result == Ok ==> Registry.LoadText(file).result == Registry.Corrupted
    ensures Registry.LoadText(file).result == Registry.Ok ==> UsageStore.LoadText(file).result == Corrupted
    ensures UsageStore.LoadText(file).result == NotFound <==> file.None?
    ensures Registry.LoadText(file).result == Registry.NotFound <==> file.None?
  {
    hide Registry.ReadLines, UsageStore.ReadFields, UsageStore.StateOfFields;
    if file.Some? {
      OtherMagic(file.value);
      NeverNotFound(file.value);
    }
  }

  lemma NeverNotFound(text: string)
    ensures UsageStore.LoadText(Some(text)).result != NotFound
    ensures Registry.LoadText(Some(text)).result != Registry.NotFound
  {
    hide UsageStore.ReadFields, UsageStore.StateOfFields, Registry.MAGIC;
    var lines := Lines(text);
    if lines != [] {
      ReadLinesResult(lines[1..], map[], []);
    }
  }

  lemma {:induction false} ReadLinesResult(lines: seq<string>, fields: Registry.Fields, entries: seq<Registry.Entry>)
    ensures Registry.ReadLines(lines, fields, entries).result != Registry.NotFound
  {
    hide Registry.EntryOfFields, Registry.KnownKey, SplitField;
    if lines != [] {
      ReadLinesResult(lines[1..], map[], Registry.Flush(fields, entries).entries);
      match SplitField(lines[0]) {
        case None =>
        case Some((key, value)) => ReadLinesResult(lines[1..], fields[key := value], entries);
      }
    }
  }

  // ---------- Which saves of the quota gate reach the disk ----------

  predicate CheckSaves(c: RuntimeConfig, stored: Loaded, w: LoadWorld) {
    RolledOver(c.policy, stored.state, w.checkNow) && Quota.ClockOk(w.checkNow)
  }

  /** A usage file is on disk once the quota gate has run: it was, or one of the gate's saves completed. */
  predicate UsageOnDisk(c: RuntimeConfig, stored: Loaded, w: LoadWorld) {
    || stored.result == Ok
    || (CheckSaves(c, stored, w) && w.checkIo.Works())
    || (Quota.ClockOk(w.sessionNow) && w.sessionIo.Works())
  }

  lemma QuotaGateResult(c: RuntimeConfig, file: Option<string>, w: LoadWorld)
    requires Admitted(c, LoadText(file), w)
    ensures var stored := LoadText(file);
            && stored.result != Corrupted && (c.modelPath != "") != (c.modelId != "")
            && AfterLoad(stored, c, w).result == if UsageOnDisk(c, stored, w) then Ok else NotFound
  {
    LoadedStatesAreValid(file);
    hide LoadText, ValidLimits;
  }

  // ---------- The exact condition ----------

  /** The two paths are equal, and the load writes its registry over nothing: the usage file was missing and no usage
      save completed, but the registry's did. */
  predicate Overwrites(c: RuntimeConfig, stored: Loaded, w: LoadWorld) {
    && c.usagePath == c.registryPath
    && Admitted(c, stored, w) && stored.result == NotFound && !UsageOnDisk(c, stored, w)
    && c.modelPath != "" && ModelVerifier.Identifies(w.fileAt(c.modelPath), w.hashFails) && w.importIo.Works()
  }

  predicate Imports(c: RuntimeConfig, registry: Registry.Loaded, w: LoadWorld) {
    && registry.result != Registry.Corrupted && Resolve(c, registry).Resolved?
    && ModelVerifier.Identifies(w.fileAt(Resolve(c, registry).path), w.hashFails)
  }

  /** The usage file is the registry's temporary file, and the load opens it for the registry: a completed write takes
      a usage file away, a failing one leaves part of a registry in its place. */
  predicate Erases(c: RuntimeConfig, stored: Loaded, registry: Registry.Loaded, w: LoadWorld) {
    && c.usagePath == TempPath(c.registryPath)
    && Admitted(c, stored, w) && Imports(c, registry, w) && w.importIo.create
    && (!w.importIo.write || UsageOnDisk(c, stored, w))
  }

  /** What an import leaves in its registry's file and in the temporary one. */
  lemma ImportAt(c: RuntimeConfig, files: Files, w: LoadWorld, path: string)
    requires Resolve(c, Registry.LoadText(Get(files, c.registryPath))) == RegistryStore.Resolved(path)
    ensures var registry := Registry.LoadText(Get(files, c.registryPath));
            var after := LateFiles(c, files, w);
            if !Imports(c, registry, w) then after == files
            else
              && LoadText(Get(after, c.registryPath)) == (if w.importIo.Works() then Loaded(Corrupted, FRESH)
                                                          else LoadText(Get(files, c.registryPath)))
              && LoadText(Get(after, TempPath(c.registryPath)))
                 == if !w.importIo.create then LoadText(Get(files, TempPath(c.registryPath)))
                    else if w.importIo.write then Loaded(NotFound, FRESH) else Loaded(Corrupted, FRESH)
  {
    hide LoadText, Registry.LoadText, RegistryStore.ImportedEntry, RegistryStore.Upsert, ModelVerifier.Identifies;
    hide ModelVerifier.ResultOf, Registry.RegistryText, SavedFiles, RegistryStore.ResolutionOf;
    var stored := Registry.LoadText(Get(files, c.registryPath));
    if Imports(c, stored, w) {
      var e := RegistryStore.ImportedEntry(ModelVerifier.ResultOf(w.fileAt(path), c.checksum), path, c.checksum,
                                           w.size, w.importNow, w.fileTypeName);
      var entries := RegistryStore.Upsert(stored.entries, e);
      var text := Registry.RegistryText(entries);
      SavedFilesAt(files, c.registryPath, text, false, w.importIo);
      SharedFileIsCorrupted(entries, text);
      SharedFileIsCorrupted(entries, Written(text, w.importIo));
      assert LoadText(None) == Loaded(NotFound, FRESH) by { LoadOfNothing(); }
    }
  }

  lemma LoadOfNothing()
    ensures LoadText(None) == Loaded(NotFound, FRESH)
    ensures Registry.LoadText(None) == Registry.Loaded(Registry.NotFound, [])
  {
  }

  lemma NoImport(c: RuntimeConfig, files: Files, w: LoadWorld)
    requires !Resolve(c, Registry.LoadText(Get(files, c.registryPath))).Resolved?
    ensures LateFiles(c, files, w) == files
  {
    hide Registry.LoadText, RegistryStore.ResolutionOf;
  }

  /** Equal paths: the usage state is as it should be unless the load overwrites it, and then it is corrupt. */
  lemma EqualPaths(c: RuntimeConfig, files: Files, w: LoadWorld)
    requires c.usagePath == c.registryPath
    ensures var stored := LoadText(Get(files, c.usagePath));
            && LoadText(Get(LoadFiles(c, files, w), c.usagePath))
               == if Overwrites(c, stored, w) then Loaded(Corrupted, FRESH) else AfterLoad(stored, c, w)
  {
    hide LoadText, Registry.LoadText, QuotaFiles, AfterLoad, ModelVerifier.Identifies, LateFiles, TempPath;
    var stored := LoadText(Get(files, c.usagePath));
    var q := QuotaFiles(c, files, w);
    QuotaGateFiles(c, files, w);
    hide Admitted;
    if Admitted(c, stored, w) {
      QuotaGateResult(c, Get(files, c.usagePath), w);
      NeverBoth(Get(q, c.usagePath));
      var registry := Registry.LoadText(Get(q, c.registryPath));
      if Resolve(c, registry).Resolved? {
        ImportAt(c, q, w, Resolve(c, registry).path);
        FoundNothing(c, q, w);
      } else {
        NoImport(c, q, w);
        FoundNothing(c, q, w);
      }
    }
  }

  /** Without a registry file only a path resolves, to itself. */
  lemma FoundNothing(c: RuntimeConfig, files: Files, w: LoadWorld)
    ensures Get(files, c.registryPath).None? && (c.modelPath == "" || c.modelId == "") ==>
              (Resolve(c, Registry.LoadText(Get(files, c.registryPath))).Resolved? <==> c.modelPath != "")
    ensures Resolve(c, Registry.LoadText(Get(files, c.registryPath))).Resolved? && c.modelPath != "" ==>
              Resolve(c, Registry.LoadText(Get(files, c.registryPath))).path == c.modelPath
  {
  }

  /** The usage file is the registry's temporary one: as it should be unless the load erases it, and then missing or
      corrupt. */
  lemma UsageIsTemp(c: RuntimeConfig, files: Files, w: LoadWorld)
    requires c.usagePath == TempPath(c.registryPath)
    ensures var stored := LoadText(Get(files, c.usagePath));
            var registry := Registry.LoadText(Get(files, c.registryPath));
            && LoadText(Get(LoadFiles(c, files, w), c.usagePath))
               == if !Erases(c, stored, registry, w) then AfterLoad(stored, c, w)
                  else if w.importIo.write then Loaded(NotFound, FRESH) else Loaded(Corrupted, FRESH)
  {
    assert c.registryPath != c.usagePath && c.registryPath != TempPath(c.usagePath) by {
      assert |c.usagePath| > |c.registryPath| && |TempPath(c.usagePath)| > |c.registryPath|;
    }
    hide LoadText, Registry.LoadText, QuotaFiles, AfterLoad, UsageOnDisk, LateFiles, TempPath, Resolve;
    hide ModelVerifier.Identifies;
    var stored := LoadText(Get(files, c.usagePath));
    var q := QuotaFiles(c, files, w);
    QuotaGateFiles(c, files, w);
    hide Admitted;
    if Admitted(c, stored, w) {
      QuotaGateResult(c, Get(files, c.usagePath), w);
      assert Get(q, c.registryPath) == Get(files, c.registryPath);
      var registry := Registry.LoadText(Get(q, c.registryPath));
      NotFoundIsFresh(Get(q, c.usagePath));
      if Resolve(c, registry).Resolved? {
        ImportAt(c, q, w, Resolve(c, registry).path);
      } else {
        NoImport(c, q, w);
      }
    }
  }

  lemma NotFoundIsFresh(file: Option<string>)
    ensures LoadText(file).result == NotFound ==> LoadText(file) == Loaded(NotFound, FRESH)
  {
  }

  /** For every configuration, valid or not, and any files: a load leaves the usage state the quota machine prescribes
      if and only if it does not overwrite or erase it with a registry. */
  lemma UsageKeptExactly(c: RuntimeConfig, files: Files, w: LoadWorld)
    ensures var stored := LoadText(Get(files, c.usagePath));
            var registry := Registry.LoadText(Get(files, c.registryPath));
            && (LoadText(Get(LoadFiles(c, files, w), c.usagePath)) == AfterLoad(stored, c, w)
                <==> !Overwrites(c, stored, w) && !Erases(c, stored, registry, w))
  {
    hide LoadText, Registry.LoadText, LoadFiles, AfterLoad, UsageOnDisk, Resolve;
    hide ModelVerifier.Identifies, TempPath;
    var stored := LoadText(Get(files, c.usagePath));
    if Admitted(c, stored, w) {
      QuotaGateResult(c, Get(files, c.usagePath), w);
    }
    hide Admitted;
    if c.usagePath == c.registryPath {
      EqualPaths(c, files, w);
      TempIsAnotherFile(c.registryPath);
    } else if c.usagePath == TempPath(c.registryPath) {
      UsageIsTemp(c, files, w);
    } else {
      RegistryElsewhere(c, files, w);
    }
  }

  /** Whatever the usage save's temporary file is, a registry that is written elsewhere leaves the usage file alone. */
  lemma RegistryElsewhere(c: RuntimeConfig, files: Files, w: LoadWorld)
    requires c.usagePath != c.registryPath && c.usagePath != TempPath(c.registryPath)
    ensures LoadText(Get(LoadFiles(c, files, w), c.usagePath)) == AfterLoad(LoadText(Get(files, c.usagePath)), c, w)
  {
    hide LoadText, QuotaFiles, LateFiles, AfterLoad, Admitted, TempPath;
    QuotaGateFiles(c, files, w);
    LateFilesTouch(c, QuotaFiles(c, files, w), w);
  }

  // ---------- What becomes of the registry ----------

  /** A registry after a usage save that is tried. Where the save puts the usage file the registry is unreadable once
      it completes; where the save has its temporary file the registry is gone once that is written, unreadable if
      the write fails, and untouched only if the file cannot be opened; elsewhere it stays as it is. */
  function Hit(usagePath: string, registryPath: string, registry: Registry.Loaded, tries: bool, io: Io)
    : Registry.Loaded
  {
    if !tries then registry
    else if registryPath == usagePath then if io.Works() then Registry.Loaded(Registry.Corrupted, []) else registry
    else if registryPath == TempPath(usagePath) then Through(registry, io)
    else registry
  }

  function Through(registry: Registry.Loaded, io: Io): Registry.Loaded {
    if !io.create then registry
    else if io.write then Registry.Loaded(Registry.NotFound, []) else Registry.Loaded(Registry.Corrupted, [])
  }

  lemma SavedStateHits(files: Files, usagePath: string, registryPath: string, s: UsageState, io: Io)
    ensures Registry.LoadText(Get(SavedState(files, usagePath, s, io), registryPath))
         == Hit(usagePath, registryPath, Registry.LoadText(Get(files, registryPath)), ValidState(s), io)
  {
    hide Registry.LoadText, StateText, SavedFiles, ValidState;
    TempIsAnotherFile(usagePath);
    SavedFilesAt(files, usagePath, StateText(s), false, io);
    UsageIsNoRegistry(s, StateText(s));
    UsageIsNoRegistry(s, Written(StateText(s), io));
    LoadOfNothing();
  }

  // When each usage operation tries a save.

  predicate CheckTries(p: UsagePolicy, stored: Loaded, now: int) {
    stored.result != Corrupted && RolledOver(p, stored.state, now) && Quota.ClockOk(now)
  }

  predicate SessionTries(stored: Loaded, now: int) { stored.result != Corrupted && Quota.ClockOk(now) }

  predicate RecordTries(p: UsagePolicy, stored: Loaded, now: int, n: int) {
    n >= 0 && stored.result != Corrupted && (RolledOver(p, stored.state, now) ==> Quota.ClockOk(now))
  }

  lemma TriedStates(p: UsagePolicy, s: UsageState, now: int, n: int)
    requires ValidState(s)
    ensures ValidState(RollOver(s, now)) == ValidState(s.(sessionStart := now)) == Quota.ClockOk(now)
    ensures n >= 0 ==> (ValidState(Record(Current(p, s, now), n)) <==> (RolledOver(p, s, now) ==> Quota.ClockOk(now)))
  {
  }

  lemma StepsHit(p: UsagePolicy, files: Files, usagePath: string, registryPath: string, now: int, n: int, io: Io)
    ensures var stored := LoadText(Get(files, usagePath));
            var registry := Registry.LoadText(Get(files, registryPath));
            && Registry.LoadText(Get(CheckFiles(p, files, usagePath, now, io), registryPath))
               == Hit(usagePath, registryPath, registry, CheckTries(p, stored, now), io)
            && Registry.LoadText(Get(SessionFiles(files, usagePath, now, io), registryPath))
               == Hit(usagePath, registryPath, registry, SessionTries(stored, now), io)
            && Registry.LoadText(Get(RecordFiles(p, files, usagePath, now, n, io), registryPath))
               == Hit(usagePath, registryPath, registry, RecordTries(p, stored, now, n), io)
  {
    var stored := LoadText(Get(files, usagePath));
    LoadedStatesAreValid(Get(files, usagePath));
    TriedStates(p, stored.state, now, n);
    NotTried(usagePath, registryPath, Registry.LoadText(Get(files, registryPath)), io);
    hide LoadText, Registry.LoadText, SavedState, ValidState, RolledOver, Hit, Quota.ClockOk;
    SavedStateHits(files, usagePath, registryPath, RollOver(stored.state, now), io);
    SavedStateHits(files, usagePath, registryPath, stored.state.(sessionStart := now), io);
    SavedStateHits(files, usagePath, registryPath, Record(Current(p, stored.state, now), n), io);
  }

  lemma NotTried(usagePath: string, registryPath: string, registry: Registry.Loaded, io: Io)
    ensures Hit(usagePath, registryPath, registry, false, io) == registry
  {
  }

  predicate GateChecks(c: RuntimeConfig, stored: Loaded, w: LoadWorld) {
    ValidConfig(c) && CheckTries(c.policy, stored, w.checkNow)
  }

  predicate GateStarts(c: RuntimeConfig, stored: Loaded, w: LoadWorld) {
    Admitted(c, stored, w) && Quota.ClockOk(w.sessionNow)
  }

  /** For every configuration and any files, admitted or denied: the registry that a load resolves and imports with
      is the stored one after the gate's two saves. */
  lemma RegistryFound(c: RuntimeConfig, files: Files, w: LoadWorld)
    ensures var stored := LoadText(Get(files, c.usagePath));
            var registry := Registry.LoadText(Get(files, c.registryPath));
            var checked := Hit(c.usagePath, c.registryPath, registry, GateChecks(c, stored, w), w.checkIo);
            && FoundRegistry(c, files, w)
               == Hit(c.usagePath, c.registryPath, checked, GateStarts(c, stored, w), w.sessionIo)
  {
    var stored := LoadText(Get(files, c.usagePath));
    if Admitted(c, stored, w) {
      QuotaGateResult(c, Get(files, c.usagePath), w);
    }
    var between := CheckFiles(c.policy, files, c.usagePath, w.checkNow, w.checkIo);
    StepsOnFiles(c.policy, files, c.usagePath, w.checkNow, 0, w.checkIo);
    StepsHit(c.policy, files, c.usagePath, c.registryPath, w.checkNow, 0, w.checkIo);
    StepsHit(c.policy, between, c.usagePath, c.registryPath, w.sessionNow, 0, w.sessionIo);
    NotTried(c.usagePath, c.registryPath, Registry.LoadText(Get(files, c.registryPath)), w.checkIo);
    NotTried(c.usagePath, c.registryPath, Registry.LoadText(Get(files, c.registryPath)), w.sessionIo);
    NotTried(c.usagePath, c.registryPath, Registry.LoadText(Get(between, c.registryPath)), w.sessionIo);
    hide LoadText, Registry.LoadText, CheckFiles, SessionFiles, RecordFiles, ValidConfig, Hit, AfterLoad, Evaluate;
    hide RolledOver;
  }

  /** The last save of the gate that opens its temporary file, if any does. */
  function LastOpening(c: RuntimeConfig, stored: Loaded, w: LoadWorld): Option<Io> {
    if GateStarts(c, stored, w) && w.sessionIo.create then Some(w.sessionIo)
    else if GateChecks(c, stored, w) && w.checkIo.create then Some(w.checkIo)
    else None
  }

  /** Whether the quota gate leaves the registry as it is. With equal paths: unless there is no file and a save
      completes. At the temporary name: unless a save opens the file, and what the last one leaves is not what was
      there. */
  predicate RegistrySurvives(c: RuntimeConfig, stored: Loaded, registry: Registry.Loaded, w: LoadWorld) {
    if c.registryPath == c.usagePath then
      !(stored.result == NotFound && ((GateChecks(c, stored, w) && w.checkIo.Works())
                                      || (GateStarts(c, stored, w) && w.sessionIo.Works())))
    else if c.registryPath == TempPath(c.usagePath) then
      match LastOpening(c, stored, w)
      case None => true
      case Some(io) => registry == Through(registry, io)
    else true
  }

  /** For every configuration and any files: a load finds the registry as stored if and only if it survives. */
  lemma RegistryFoundExactly(c: RuntimeConfig, files: Files, w: LoadWorld)
    ensures var stored := LoadText(Get(files, c.usagePath));
            var registry := Registry.LoadText(Get(files, c.registryPath));
            && (FoundRegistry(c, files, w) == registry <==> RegistrySurvives(c, stored, registry, w))
  {
    RegistryFound(c, files, w);
    TempIsAnotherFile(c.usagePath);
    UsageFileIsNoRegistry(Get(files, c.usagePath));
    GateIdle(c, Get(files, c.usagePath), w);
    hide LoadText, Registry.LoadText, FoundRegistry, TempPath, GateChecks, GateStarts;
  }

  lemma GateIdle(c: RuntimeConfig, file: Option<string>, w: LoadWorld)
    ensures var stored := LoadText(file);
            stored.result == Corrupted ==> !GateChecks(c, stored, w) && !GateStarts(c, stored, w)
  {
    if Admitted(c, LoadText(file), w) {
      QuotaGateResult(c, file, w);
    }
    hide LoadText, Admitted;
  }

  lemma UsageFileIsNoRegistry(file: Option<string>)
    ensures LoadText(file).result == Ok ==> Registry.LoadText(file) == Registry.Loaded(Registry.Corrupted, [])
    ensures LoadText(file).result == NotFound ==> Registry.LoadText(file) == Registry.Loaded(Registry.NotFound, [])
  {
    NeverBoth(file);
    LoadOfNothing();
    hide Registry.LoadText, UsageStore.ReadFields, UsageStore.StateOfFields;
    if LoadText(file).result == Ok {
      MagicLines();
      FirstLineIsPrefix(file.value);
      OtherMagic(file.value);
    }
  }

  /** The entry a load records. */
  function RecordedEntry(c: RuntimeConfig, path: string, w: LoadWorld): Registry.Entry {
    RegistryStore.ImportedEntry(ModelVerifier.ResultOf(w.fileAt(path), c.checksum), path, c.checksum, w.size,
                                w.importNow, w.fileTypeName)
  }

  /** The registry after a load that found this one: with the model recorded if the load gets to its import and the save
      completes, and otherwise as found. */
  function Recorded(c: RuntimeConfig, found: Registry.Loaded, w: LoadWorld): Registry.Loaded {
    if Imports(c, found, w) && w.importIo.Works() then
      Registry.Loaded(Registry.Ok, RegistryStore.Upsert(found.entries, RecordedEntry(c, Resolve(c, found).path, w)))
    else found
  }

  /** For every configuration and any files: what a load leaves in the registry file. */
  lemma RegistryAfterLoad(c: RuntimeConfig, files: Files, w: LoadWorld)
    requires InRange(w)
    ensures var stored, found := LoadText(Get(files, c.usagePath)), FoundRegistry(c, files, w);
            && Registry.LoadText(Get(LoadFiles(c, files, w), c.registryPath))
               == if Admitted(c, stored, w) then Recorded(c, found, w) else found
  {
    hide LoadText, Registry.LoadText, QuotaFiles, Admitted, LateFiles, Recorded;
    RegistryAfterImport(c, QuotaFiles(c, files, w), w);
  }

  lemma RegistryAfterImport(c: RuntimeConfig, files: Files, w: LoadWorld)
    requires InRange(w)
    ensures Registry.LoadText(Get(LateFiles(c, files, w), c.registryPath))
         == Recorded(c, Registry.LoadText(Get(files, c.registryPath)), w)
  {
    hide Registry.LoadText, RegistryStore.ImportedEntry, RegistryStore.Upsert, ModelVerifier.Identifies;
    hide ModelVerifier.ResultOf, Registry.RegistryText, SavedFiles, RegistryStore.ResolutionOf;
    var found := Registry.LoadText(Get(files, c.registryPath));
    if Imports(c, found, w) {
      var path := Resolve(c, found).path;
      var e := RecordedEntry(c, path, w);
      RecordedIsStorable(c, path, w);
      Registry.LoadedEntriesAreStorable(Get(files, c.registryPath));
      RegistryStore.UpsertIsStorable(found.entries, e);
      var entries := RegistryStore.Upsert(found.entries, e);
      Registry.LoadOfRegistryText(entries);
      SavedFilesAt(files, c.registryPath, Registry.RegistryText(entries), false, w.importIo);
    }
  }

  lemma RecordedIsStorable(c: RuntimeConfig, path: string, w: LoadWorld)
    requires InRange(w) && ModelVerifier.Identifies(w.fileAt(path), w.hashFails)
    ensures var e := RecordedEntry(c, path, w); e.InRange() && e.modelId != ""
  {
    ModelVerifier.IdentifiedResult(w.fileAt(path), c.checksum, w.hashFails);
    RegistryStore.IdentityIsNotEmpty(w.fileAt(path).content);
    hide ModelVerifier.Identity, ModelVerifier.ResultOf;
  }

  /** The registry at the usage file's temporary name: every load that gets to its session save and opens the file finds
      no registry, or an unreadable one; if it then records its model, every other entry is lost. A load that is denied
      after its check opened the file leaves the same. */
  lemma RegistryIsTemp(c: RuntimeConfig, files: Files, w: LoadWorld)
    requires c.registryPath == TempPath(c.usagePath) && InRange(w)
    ensures var stored := LoadText(Get(files, c.usagePath));
            var registry, found := Registry.LoadText(Get(files, c.registryPath)), FoundRegistry(c, files, w);
            var after := Registry.LoadText(Get(LoadFiles(c, files, w), c.registryPath));
            && (match LastOpening(c, stored, w)
                case None => found == registry
                case Some(io) => found == Through(registry, io))
            && (!Admitted(c, stored, w) ==> after == found)
            && (LastOpening(c, stored, w).Some? && after.result == Registry.Ok ==>
                  after.entries == [RecordedEntry(c, c.modelPath, w)])
  {
    RegistryFound(c, files, w);
    RegistryAfterLoad(c, files, w);
    TempIsAnotherFile(c.usagePath);
    var stored := LoadText(Get(files, c.usagePath));
    var found := FoundRegistry(c, files, w);
    hide LoadText, Registry.LoadText, FoundRegistry, LoadFiles, TempPath, Admitted, RolledOver, ValidConfig;
    hide Quota.ClockOk, RecordedEntry, ModelVerifier.Identifies, CheckTries;
    if found == Registry.Loaded(Registry.NotFound, []) && Resolve(c, found).Resolved? {
      PathFromNothing(c);
    }
  }

  lemma PathFromNothing(c: RuntimeConfig)
    ensures var resolution := Resolve(c, Registry.Loaded(Registry.NotFound, []));
            resolution.Resolved? ==> resolution.path == c.modelPath
  {
  }

  /** What a generation leaves of the registry: its two saves hit it as a load's do. */
  lemma RegistryAfterGeneration(c: RuntimeConfig, files: Files, checkNow: int, checkIo: Io, recordNow: int,
                                recordIo: Io, callbacks: nat)
    ensures var stored := LoadText(Get(files, c.usagePath));
            var registry := Registry.LoadText(Get(files, c.registryPath));
            var admitted := Quota.Admits(c.policy, stored, checkNow, checkIo);
            var checked := Hit(c.usagePath, c.registryPath, registry, CheckTries(c.policy, stored, checkNow), checkIo);
            var current := CheckStep(c.policy, stored, checkNow, checkIo).1;
            var records := admitted && RecordTries(c.policy, current, recordNow, callbacks);
            && Registry.LoadText(Get(GeneratedFiles(c, files, checkNow, checkIo, recordNow, recordIo, callbacks),
                                     c.registryPath))
               == Hit(c.usagePath, c.registryPath, checked, records, recordIo)
  {
    var between := CheckFiles(c.policy, files, c.usagePath, checkNow, checkIo);
    StepsOnFiles(c.policy, files, c.usagePath, checkNow, 0, checkIo);
    StepsHit(c.policy, files, c.usagePath, c.registryPath, checkNow, 0, checkIo);
    StepsHit(c.policy, between, c.usagePath, c.registryPath, recordNow, callbacks, recordIo);
    NotTried(c.usagePath, c.registryPath, Registry.LoadText(Get(between, c.registryPath)), recordIo);
    hide LoadText, Registry.LoadText, CheckFiles, SessionFiles, RecordFiles, Hit, RecordTries, CheckTries, CheckStep;
  }

  /** Equal paths, once a usage file is there: the registry is unreadable to every load, so no id resolves and nothing
      is ever recorded. */
  lemma EqualPathsRecordNothing(c: RuntimeConfig, files: Files, w: LoadWorld)
    requires c.usagePath == c.registryPath
    requires var stored := LoadText(Get(files, c.usagePath)); Admitted(c, stored, w) && UsageOnDisk(c, stored, w)
    ensures FoundRegistry(c, files, w).result == Registry.Corrupted
    ensures LoadFiles(c, files, w) == QuotaFiles(c, files, w)
    ensures c.modelPath == "" ==> !Resolve(c, FoundRegistry(c, files, w)).Resolved?
  {
    QuotaGateResult(c, Get(files, c.usagePath), w);
    hide LoadText, Registry.LoadText, QuotaFiles, AfterLoad, UsageOnDisk, Admitted, ModelVerifier.Identifies;
    var q := QuotaFiles(c, files, w);
    QuotaGateFiles(c, files, w);
    NeverBoth(Get(q, c.usagePath));
    if Resolve(c, FoundRegistry(c, files, w)).Resolved? {
      ImportAt(c, q, w, Resolve(c, FoundRegistry(c, files, w)).path);
    } else {
      NoImport(c, q, w);
    }
  }

  // ---------- Each of the three at a configuration ----------

  function Example(usagePath: string, registryPath: string, modelPath: string, modelId: string): RuntimeConfig {
    RuntimeConfig(modelPath, modelId, 16, 1, true, 0, 1, 256, 0, UsagePolicy(0, 8, 0, 60), usagePath, registryPath, "")
  }

  /** The smallest model file: a header and no entries. */
  function Model(): string { GgufFormat.EncodeFile(2, 0, []) }

  const WORKS := Io(true, true, 0, true)
  const FAILS := Io(false, false, 0, false)

  function ExampleWorld(now: int, usageIo: Io, importIo: Io): LoadWorld {
    LoadWorld(now, usageIo, now, usageIo, _ => ModelVerifier.Regular(Model()), None, None, now, importIo, _ => "",
              Inference.LoadOracle(true, true, Memory.Hyperparams(1, 1, 1, 1), 0, true, 16))
  }

  lemma ModelIsIdentified(path: string, now: int, usageIo: Io, importIo: Io)
    ensures ModelVerifier.Identifies(ExampleWorld(now, usageIo, importIo).fileAt(path), None)
  {
    hide GgufFormat.EncodeFile;
    GgufTheorems.EncodedFilesAreAccepted(Model(), 2, 0, []);
  }

  /** Equal paths: a first load whose usage saves fail and whose registry save works leaves a corrupt usage file, and
      no load or generation is admitted any more. */
  lemma OverwrittenExample(p: UsagePolicy, later: int, io: Io)
    ensures var c, w := Example("s", "s", "m", ""), ExampleWorld(120, FAILS, WORKS);
            var after := LoadText(Get(LoadFiles(c, map[], w), "s"));
            ValidConfig(c) && after == Loaded(Corrupted, FRESH) && !Quota.Admits(p, after, later, io)
  {
    var c, w := Example("s", "s", "m", ""), ExampleWorld(120, FAILS, WORKS);
    ModelIsIdentified("m", 120, FAILS, WORKS);
    hide ModelVerifier.Identifies, LoadFiles, GgufFormat.EncodeFile;
    LoadOfNothing();
    EqualPaths(c, map[], w);
    assert Overwrites(c, Loaded(NotFound, FRESH), w);
  }

  const SEVEN_MESSAGES := UsageState(1, 100, 7, 9, 0)

  lemma ErasedStep()
    ensures var c, w := Example("r.tmp", "r", "m", ""), ExampleWorld(120, WORKS, WORKS);
            && ValidConfig(c)
            && AfterLoad(Loaded(Ok, SEVEN_MESSAGES), c, w) == Loaded(Ok, SEVEN_MESSAGES.(sessionStart := 120))
            && Erases(c, Loaded(Ok, SEVEN_MESSAGES), Registry.Loaded(Registry.NotFound, []), w)
  {
    ModelIsIdentified("m", 120, WORKS, WORKS);
    hide ModelVerifier.Identifies, GgufFormat.EncodeFile;
    assert TempPath("r") == "r.tmp";
  }

  /** The registry's temporary file: a load that works throughout forgets the seven messages counted before it. */
  lemma ErasedExample()
    ensures var c, w := Example("r.tmp", "r", "m", ""), ExampleWorld(120, WORKS, WORKS);
            var files: Files := map["r.tmp" := StateText(SEVEN_MESSAGES)];
            && ValidConfig(c) && LoadText(Get(files, "r.tmp")) == Loaded(Ok, SEVEN_MESSAGES)
            && AfterLoad(Loaded(Ok, SEVEN_MESSAGES), c, w) == Loaded(Ok, SEVEN_MESSAGES.(sessionStart := 120))
            && LoadText(Get(LoadFiles(c, files, w), "r.tmp")) == Loaded(NotFound, FRESH)
  {
    LoadOfStateText(SEVEN_MESSAGES);
    LoadOfNothing();
    ErasedStep();
    assert TempPath("r") == "r.tmp";
    assert "r" != "r.tmp";
    hide Erases, LoadFiles, AfterLoad, LoadText, Registry.LoadText, StateText, SEVEN_MESSAGES, ValidConfig, TempPath;
    hide ExampleWorld;
    var c, w := Example("r.tmp", "r", "m", ""), ExampleWorld(120, WORKS, WORKS);
    var files: Files := map["r.tmp" := StateText(SEVEN_MESSAGES)];
    UsageIsTemp(c, files, w);
    assert Get(files, "r") == None;
    assert w.importIo.write by { WorldWrites(); }
  }

  lemma WorldWrites()
    ensures ExampleWorld(120, WORKS, WORKS).importIo.write
  {
  }

  /** The usage save's temporary file: a load by id removes the registry that holds the id, and so fails. */
  lemma RegistryGoneExample(e: Registry.Entry)
    requires e.InRange() && e.modelId != ""
    ensures var c, w := Example("u", "u.tmp", "", e.modelId), ExampleWorld(120, WORKS, WORKS);
            var files: Files := map["u.tmp" := Registry.RegistryText([e])];
            && ValidConfig(c)
            && Resolve(c, Registry.LoadText(Get(files, "u.tmp"))) == RegistryStore.Resolved(e.localPath)
            && FoundRegistry(c, files, w) == Registry.Loaded(Registry.NotFound, [])
            && GateError(c, LoadText(Get(files, "u")), FoundRegistry(c, files, w), w) == ModelResolutionFailed
  {
    Registry.LoadOfRegistryText([e]);
    LoadOfNothing();
    GoneStep(e);
    assert "u" != "u.tmp";
    hide FoundRegistry, GateError, Resolve, Hit, GateChecks, GateStarts, ExampleWorld;
    hide LoadText, Registry.LoadText, Registry.RegistryText, ValidConfig, TempPath;
    var c, w := Example("u", "u.tmp", "", e.modelId), ExampleWorld(120, WORKS, WORKS);
    var files: Files := map["u.tmp" := Registry.RegistryText([e])];
    RegistryFound(c, files, w);
    assert Get(files, "u") == None;
  }

  lemma GoneStep(e: Registry.Entry)
    requires e.modelId != ""
    ensures var c, w := Example("u", "u.tmp", "", e.modelId), ExampleWorld(120, WORKS, WORKS);
            var before, gone := Registry.Loaded(Registry.Ok, [e]), Registry.Loaded(Registry.NotFound, []);
            && Admitted(c, Loaded(NotFound, FRESH), w) && ValidConfig(c)
            && Resolve(c, before) == RegistryStore.Resolved(e.localPath)
            && Hit(c.usagePath, c.registryPath,
                   Hit(c.usagePath, c.registryPath, before, GateChecks(c, Loaded(NotFound, FRESH), w), w.checkIo),
                   GateStarts(c, Loaded(NotFound, FRESH), w), w.sessionIo) == gone
            && GateError(c, Loaded(NotFound, FRESH), gone, w) == ModelResolutionFailed
  {
    hide ModelVerifier.Passes, GgufFormat.EncodeFile, Inference.LoadOutcome;
    assert TempPath("u") == "u.tmp" && "u" != "u.tmp";
  }
}
