/** The runtime: the gate pipeline of a load, and generations admitted, counted and recorded. */
module Runtime {
  import opened Wrappers
  import opened FileSystem
  import opened UsageTypes
  import opened UsageStore
  import opened UsageManager
  import opened Inference
  import DigestText
  import GgufFormat
  import GgufTheorems
  import ModelVerifier
  import Quota
  import Registry
  import RegistryStore
  import Sha256Spec

  datatype RuntimeError =
    Succeeded | InvalidConfig | EngineFailed(error: EngineError) | NotLoaded | QuotaExceeded
    | ModelResolutionFailed | ModelVerificationFailed

  /** samplingOk stands for the checks on temperature and top_p. */
  datatype RuntimeConfig = RuntimeConfig(
    modelPath: string, modelId: string, contextSize: int, threads: int, samplingOk: bool, topK: int, maxTokens: int,
    budgetMb: int, reserveMb: int, policy: UsagePolicy, usagePath: string, registryPath: string, checksum: string)

  const MAX_LIMIT: int := 1_000_000_000

  predicate ValidLimits(c: RuntimeConfig) {
    && 16 <= c.contextSize <= 8192 && c.threads > 0 && c.samplingOk && c.topK >= 0 && c.maxTokens > 0
    && 256 <= c.budgetMb <= 131072 && 0 <= c.reserveMb < c.budgetMb
    && 0 <= c.policy.sessionLimit <= MAX_LIMIT && 0 <= c.policy.messageLimit <= MAX_LIMIT
    && 0 <= c.policy.tokenLimit <= MAX_LIMIT && c.policy.resetPeriod >= 60
    && c.usagePath != "" && c.registryPath != ""
  }

  predicate ValidConfig(c: RuntimeConfig) { (c.modelPath != "") != (c.modelId != "") && ValidLimits(c) }

  /** What each number may be, the others being valid. */
  lemma LimitsExactly(c: RuntimeConfig, n: int)
    requires ValidLimits(c)
    ensures ValidLimits(c.(contextSize := n)) <==> 16 <= n <= 8192
    ensures ValidLimits(c.(threads := n)) <==> n >= 1
    ensures ValidLimits(c.(topK := n)) <==> n >= 0
    ensures ValidLimits(c.(maxTokens := n)) <==> n >= 1
    ensures ValidLimits(c.(budgetMb := n)) <==> 256 <= n <= 131072 && c.reserveMb < n
    ensures ValidLimits(c.(reserveMb := n)) <==> 0 <= n < c.budgetMb
    ensures ValidLimits(c.(policy := c.policy.(sessionLimit := n))) <==> 0 <= n <= 1000000000
    ensures ValidLimits(c.(policy := c.policy.(messageLimit := n))) <==> 0 <= n <= 1000000000
    ensures ValidLimits(c.(policy := c.policy.(tokenLimit := n))) <==> 0 <= n <= 1000000000
    ensures ValidLimits(c.(policy := c.policy.(resetPeriod := n))) <==> n >= 60
  {
  }

  /** Nothing a registry save writes is the usage file, nor the other way round. The code does not check this: what
      it costs is the subject of the modules Overlap and Runs. */
  predicate Apart(c: RuntimeConfig) {
    && c.registryPath != c.usagePath
    && c.registryPath != TempPath(c.usagePath) && c.usagePath != TempPath(c.registryPath)
  }

  function ToEngineConfig(c: RuntimeConfig): EngineConfig
    requires ValidLimits(c)
  {
    EngineConfig(c.contextSize, c.maxTokens, c.budgetMb, c.reserveMb)
  }

  /** What one load meets: clock readings, saves, the model files and the engine's foreign code. */
  datatype LoadWorld = LoadWorld(
    checkNow: int, checkIo: Io, sessionNow: int, sessionIo: Io,
    fileAt: string -> ModelVerifier.PathState, hashFails: Option<nat>, size: Option<nat>,
    importNow: int, importIo: Io, fileTypeName: RegistryStore.FileTypeName, engine: LoadOracle)

  /** The ranges of the types of what the world answers. */
  ghost predicate InRange(w: LoadWorld) {
    && w.engine.modelBytes <= MAX_U64 && (w.size.Some? ==> w.size.value <= MAX_U64)
    && MIN_I64 <= w.importNow <= MAX_I64
  }

  function Resolve(c: RuntimeConfig, registry: Registry.Loaded): RegistryStore.Resolution {
    RegistryStore.ResolutionOf(c.modelPath, c.modelId, registry)
  }

  predicate Verifies(c: RuntimeConfig, path: string, w: LoadWorld) {
    ModelVerifier.Passes(w.fileAt(path), c.checksum, w.hashFails)
  }

  /** The first gate behind the quota that refuses: resolution, verification, engine. */
  function LateGateError(c: RuntimeConfig, registry: Registry.Loaded, w: LoadWorld): RuntimeError
    requires ValidLimits(c)
  {
    var resolution := Resolve(c, registry);
    if !resolution.Resolved? then ModelResolutionFailed
    else if !Verifies(c, resolution.path, w) then ModelVerificationFailed
    else if LoadOutcome(ToEngineConfig(c), w.engine) != NoError then
      EngineFailed(LoadOutcome(ToEngineConfig(c), w.engine))
    else Succeeded
  }

  /** The first gate that refuses, configuration and quota coming first. */
  function GateError(c: RuntimeConfig, stored: Loaded, registry: Registry.Loaded, w: LoadWorld): RuntimeError {
    if !ValidConfig(c) then InvalidConfig
    else if !Quota.Admits(c.policy, stored, w.checkNow, w.checkIo) then QuotaExceeded
    else LateGateError(c, registry, w)
  }

  /** The same load as an event of the quota machine. */
  function LoadEvent(c: RuntimeConfig, registry: Registry.Loaded, w: LoadWorld): Quota.Event {
    Quota.LoadAttempt(
      ValidConfig(c), w.checkNow, w.checkIo, w.sessionNow, w.sessionIo,
      ValidConfig(c) && LateGateError(c, registry, w) == Succeeded)
  }

  predicate Admitted(c: RuntimeConfig, stored: Loaded, w: LoadWorld) {
    ValidConfig(c) && Quota.Admits(c.policy, stored, w.checkNow, w.checkIo)
  }

  /** The persisted usage state a load should leave: the quota machine's. */
  function AfterLoad(stored: Loaded, c: RuntimeConfig, w: LoadWorld): Loaded {
    if !ValidConfig(c) then stored
    else
      var checked := CheckStep(c.policy, stored, w.checkNow, w.checkIo).1;
      if Admitted(c, stored, w) then SessionStep(checked, w.sessionNow, w.sessionIo) else checked
  }

  // ---------- What a load does to the files, for any paths ----------

  /** After the quota gate. */
  function QuotaFiles(c: RuntimeConfig, files: Files, w: LoadWorld): Files {
    if !ValidConfig(c) then files
    else
      var checked := CheckFiles(c.policy, files, c.usagePath, w.checkNow, w.checkIo);
      if Admitted(c, LoadText(Get(files, c.usagePath)), w) then
        SessionFiles(checked, c.usagePath, w.sessionNow, w.sessionIo)
      else checked
  }

  /** The registry as resolution and import find it. */
  function FoundRegistry(c: RuntimeConfig, files: Files, w: LoadWorld): Registry.Loaded {
    Registry.LoadText(Get(QuotaFiles(c, files, w), c.registryPath))
  }

  /** After resolution and import. */
  function LateFiles(c: RuntimeConfig, files: Files, w: LoadWorld): Files {
    match Resolve(c, Registry.LoadText(Get(files, c.registryPath)))
    case Resolved(path) =>
      RegistryStore.ImportFiles(files, c.registryPath, path, w.fileAt(path), c.checksum, w.hashFails, w.size,
                                w.importNow, w.fileTypeName, w.importIo)
    case _ => files
  }

  function LoadFiles(c: RuntimeConfig, files: Files, w: LoadWorld): Files {
    var q := QuotaFiles(c, files, w);
    if Admitted(c, LoadText(Get(files, c.usagePath)), w) then LateFiles(c, q, w) else q
  }

  /** A generation's check, and the record if it is admitted. */
  function GeneratedFiles(c: RuntimeConfig, files: Files, checkNow: int, checkIo: Io, recordNow: int, recordIo: Io,
                          callbacks: nat): Files {
    var checked := CheckFiles(c.policy, files, c.usagePath, checkNow, checkIo);
    if Quota.Admits(c.policy, LoadText(Get(files, c.usagePath)), checkNow, checkIo) then
      RecordFiles(c.policy, checked, c.usagePath, recordNow, callbacks, recordIo)
    else checked
  }

  /** The quota gate leaves the usage file as the quota machine says, and touches nothing but it and its temporary. */
  lemma QuotaGateFiles(c: RuntimeConfig, files: Files, w: LoadWorld)
    ensures LoadText(Get(QuotaFiles(c, files, w), c.usagePath)) == AfterLoad(LoadText(Get(files, c.usagePath)), c, w)
    ensures OnlyTouches(files, QuotaFiles(c, files, w), c.usagePath)
  {
    hide LoadText, CheckFiles, SessionFiles, RecordFiles, CheckStep, SessionStep, RecordStep, ValidConfig;
    StepsOnFiles(c.policy, files, c.usagePath, w.checkNow, 0, w.checkIo);
    StepsOnFiles(c.policy, CheckFiles(c.policy, files, c.usagePath, w.checkNow, w.checkIo), c.usagePath, w.sessionNow,
                 0, w.sessionIo);
  }

  lemma LateFilesTouch(c: RuntimeConfig, files: Files, w: LoadWorld)
    ensures OnlyTouches(files, LateFiles(c, files, w), c.registryPath)
  {
    hide Registry.LoadText, Resolve, RegistryStore.ImportFiles;
    match Resolve(c, Registry.LoadText(Get(files, c.registryPath)))
    case Resolved(path) =>
      RegistryStore.ImportTouches(files, c.registryPath, path, w.fileAt(path), c.checksum, w.hashFails, w.size,
                                  w.importNow, w.fileTypeName, w.importIo);
    case _ =>
  }

  /** With the two files apart, a load finds the registry as it was and leaves the usage state it should. */
  lemma ApartFiles(c: RuntimeConfig, files: Files, w: LoadWorld)
    requires Apart(c)
    ensures FoundRegistry(c, files, w) == Registry.LoadText(Get(files, c.registryPath))
    ensures LoadText(Get(LoadFiles(c, files, w), c.usagePath)) == AfterLoad(LoadText(Get(files, c.usagePath)), c, w)
  {
    hide LoadText, Registry.LoadText, QuotaFiles, LateFiles, AfterLoad, Admitted, TempPath;
    QuotaGateFiles(c, files, w);
    LateFilesTouch(c, QuotaFiles(c, files, w), w);
  }

  lemma PathIsNoLimit(c: RuntimeConfig, path: string)
    requires ValidLimits(c)
    ensures ValidLimits(c.(modelPath := path)) && ToEngineConfig(c.(modelPath := path)) == ToEngineConfig(c)
  {
  }

  function ImportedId(file: ModelVerifier.PathState): string {
    if file.Regular? then ModelVerifier.Identity(file.content) else ""
  }

  /** The model and its context fit the configured budget, in the configuration's own numbers. */
  predicate LoadFits(c: RuntimeConfig, o: LoadOracle) {
    var hp, ctx := o.hp, c.contextSize;
    && 0 < hp.layers <= 2048 && 0 < hp.embd <= 1048576 && 0 < hp.kvHeads <= hp.heads <= 4096 && 0 < ctx <= 16777216
    && o.modelBytes + 2 * hp.layers * ctx * (hp.embd * hp.kvHeads / hp.heads) * 2 + ctx * hp.embd * 16
       + 180 * 1024 * 1024 + c.reserveMb * 1024 * 1024 <= c.budgetMb * 1024 * 1024
  }

  /** The file behind a selector has a valid structure, can be read again for its hash, and has the configured hash, if
      one is configured. */
  ghost predicate FileIsGood(c: RuntimeConfig, file: ModelVerifier.PathState, hashFails: Option<nat>) {
    && ModelVerifier.Identifies(file, hashFails)
    && (c.checksum == "" || DigestText.ReadDigest(c.checksum) == Some(ModelVerifier.HashOf(file.content)))
  }

  lemma VerifiesExactly(c: RuntimeConfig, path: string, w: LoadWorld)
    ensures Verifies(c, path, w) <==> FileIsGood(c, w.fileAt(path), w.hashFails)
  {
    hide ModelVerifier.Identifies, DigestText.ReadDigest, DigestText.Lower;
    hide Sha256Spec.HexDigest, Sha256Spec.HashBlocks, Sha256Spec.Pad;
    if w.fileAt(path).Regular? {
      DigestText.ReadsAsExactly(c.checksum, ModelVerifier.HashOf(w.fileAt(path).content));
    } else {
      IdentifiedIsRegular(w.fileAt(path), w.hashFails);
    }
  }

  lemma IdentifiedIsRegular(file: ModelVerifier.PathState, hashFails: Option<nat>)
    ensures ModelVerifier.Identifies(file, hashFails) ==> file.Regular?
  {
  }

  /** The cause of each error of a load, in the order of the gates. */
  lemma GateErrorsExactly(c: RuntimeConfig, stored: Loaded, registry: Registry.Loaded, w: LoadWorld)
    ensures var error, resolution := GateError(c, stored, registry, w), Resolve(c, registry);
            if !ValidConfig(c) then error == InvalidConfig
            else if CheckStep(c.policy, stored, w.checkNow, w.checkIo).0.outcome != Allowed then error == QuotaExceeded
            else if !resolution.Resolved? then error == ModelResolutionFailed
            else if !FileIsGood(c, w.fileAt(resolution.path), w.hashFails) then error == ModelVerificationFailed
            else if !w.engine.fileExists then error == EngineFailed(ModelFileNotFound)
            else if !w.engine.modelLoads then error == EngineFailed(ModelLoadFailed)
            else if !LoadFits(c, w.engine) then error == EngineFailed(MemoryBudgetExceeded)
            else error == if w.engine.contextCreates then Succeeded else EngineFailed(ContextCreateFailed)
  {
    hide FileIsGood, Verifies, CheckStep, RegistryStore.ResolutionOf;
    if ValidConfig(c) && Resolve(c, registry).Resolved? {
      VerifiesExactly(c, Resolve(c, registry).path, w);
      LoadOutcomeExactly(ToEngineConfig(c), w.engine);
    }
    hide LoadOutcome, Resolve;
  }

  /** A load that passes every gate has, behind the path its selector names, a regular file that begins with a
      well-formed header and key-value list and has the configured hash, if one is configured; it fits the budget and
      the quota admits it. */
  lemma PassedGatesMeanVerified(c: RuntimeConfig, stored: Loaded, registry: Registry.Loaded, w: LoadWorld)
    requires GateError(c, stored, registry, w) == Succeeded
    ensures var resolution := Resolve(c, registry);
            && resolution.Resolved? && w.fileAt(resolution.path).Regular?
            && (GgufFormat.Octets(w.fileAt(resolution.path).content) ==>
                  GgufTheorems.BeginsWithEncoding(w.fileAt(resolution.path).content))
            && (c.checksum != "" ==>
                  DigestText.ReadDigest(c.checksum) == Some(ModelVerifier.HashOf(w.fileAt(resolution.path).content)))
    ensures LoadFits(c, w.engine)
    ensures CheckStep(c.policy, stored, w.checkNow, w.checkIo).0.outcome == Allowed
  {
    hide GgufTheorems.BeginsWithEncoding, RegistryStore.ResolutionOf, DigestText.ReadDigest, ModelVerifier.HashOf;
    hide GgufFormat.Octets, LoadFits, CheckStep, Verifies;
    GateErrorsExactly(c, stored, registry, w);
    var content := w.fileAt(Resolve(c, registry).path).content;
    if GgufFormat.Octets(content) {
      GgufTheorems.AcceptedExactly(content);
    }
  }

  class Runtime {
    const disk: Disk
    const engine: Engine
    var ready: bool
    var lastError: RuntimeError
    var config: RuntimeConfig
    var usageManager: Manager?

    ghost predicate Valid()
      reads this, engine, engine.Owned()
    {
      && engine.Valid()
      && (ready ==>
            && engine.IsLoaded() && ValidLimits(config) && engine.config == ToEngineConfig(config)
            && usageManager != null && usageManager.disk == disk && usageManager.statePath == config.usagePath)
    }

    predicate IsReady()
      reads this, engine
    {
      ready && engine.IsLoaded()
    }

    ghost function Stored(path: string): Loaded
      reads disk
    {
      LoadText(Get(disk.files, path))
    }

    ghost function Registered(path: string): Registry.Loaded
      reads disk
    {
      Registry.LoadText(Get(disk.files, path))
    }

    constructor (disk: Disk, engine: Engine, config: RuntimeConfig)
      requires engine.Valid()
      ensures Valid() && !ready && this.disk == disk && this.engine == engine
    {
      this.disk, this.engine, this.config := disk, engine, config;
      ready, lastError, usageManager := false, Succeeded, null;
    }

    /** The quota gate: the admission check comes first, and only an admitted load starts a session. */
    method PassQuota(c: RuntimeConfig, w: LoadWorld) returns (admitted: bool)
      requires ValidConfig(c)
      modifies this`usageManager, disk
      ensures admitted == Quota.Admits(c.policy, old(Stored(c.usagePath)), w.checkNow, w.checkIo)
      ensures disk.files == QuotaFiles(c, old(disk.files), w)
      ensures usageManager != null && usageManager.disk == disk && usageManager.statePath == c.usagePath
    {
      hide LoadText, CheckStep, SessionStep, ValidLimits, CheckFiles, SessionFiles;
      usageManager := new Manager(disk, c.usagePath);
      var decision := usageManager.CheckAdmission(c.policy, w.checkNow, w.checkIo);
      if decision.outcome != Allowed {
        return false;
      }
      var _ := usageManager.SessionStart(w.sessionNow, w.sessionIo);
      admitted := true;
    }

    /** Resolution, then verification, which also records the model in the registry. */
    method PassVerification(c: RuntimeConfig, w: LoadWorld) returns (error: RuntimeError, path: string)
      requires ValidLimits(c) && InRange(w)
      modifies disk
      ensures var resolution := Resolve(c, old(Registered(c.registryPath)));
              && (error == ModelResolutionFailed <==> !resolution.Resolved?)
              && (error == ModelVerificationFailed <==> resolution.Resolved? && !Verifies(c, resolution.path, w))
              && (error == Succeeded <==> resolution.Resolved? && Verifies(c, resolution.path, w))
              && (error == Succeeded ==> path == resolution.path)
      ensures disk.files == LateFiles(c, old(disk.files), w)
      ensures error == Succeeded && w.importIo.Works()
              && old(Registered(c.registryPath)).result != Registry.Corrupted ==>
                Registered(c.registryPath).result == Registry.Ok
                && exists e :: e in Registered(c.registryPath).entries
                               && e.modelId == ImportedId(w.fileAt(path)) && e.localPath == path
    {
      hide Registry.LoadText, RegistryStore.ResolutionOf, ModelVerifier.Passes, RegistryStore.Upsert;
      hide ModelVerifier.ResultOf, ModelVerifier.Identity, RegistryStore.HasId, RegistryStore.ImportFiles;
      hide ModelVerifier.Identifies;
      path := "";
      ghost var stored := Registered(c.registryPath);
      var resolution := RegistryStore.ResolveModelPath(disk, c.modelPath, c.modelId, c.registryPath);
      if !resolution.Resolved? {
        return ModelResolutionFailed, path;
      }
      path := resolution.path;
      var v, _ := RegistryStore.ImportModel(disk, c.registryPath, path, w.fileAt(path), c.checksum, w.hashFails, w.size,
                                            w.importNow, w.fileTypeName, w.importIo);
      if v.status != ModelVerifier.Verified {
        return ModelVerificationFailed, path;
      }
      ghost var e := RegistryStore.ImportedEntry(v, path, c.checksum, w.size, w.importNow, w.fileTypeName);
      RegistryStore.UpsertContains(stored.entries, e);
      error := Succeeded;
    }

    /** Verification, then the engine's own gates. */
    method PassLateGates(c: RuntimeConfig, w: LoadWorld) returns (error: RuntimeError, path: string)
      requires engine.Valid() && ValidLimits(c) && InRange(w)
      modifies disk, engine, engine.llama
      ensures engine.Valid() && error == LateGateError(c, old(Registered(c.registryPath)), w)
      ensures error == Succeeded ==> engine.IsLoaded() && engine.config == ToEngineConfig(c)
      ensures error.EngineFailed? ==> !engine.IsLoaded()
      ensures error == Succeeded || error.EngineFailed? || (unchanged(engine) && unchanged(engine.llama))
      ensures var m := engine.contextManager; m == null || m == old(engine.contextManager) || fresh(m)
      ensures disk.files == LateFiles(c, old(disk.files), w)
    {
      hide LoadOutcome, Registry.LoadText, Resolve, Verifies, LateFiles, ImportedId;
      error, path := PassVerification(c, w);
      if error != Succeeded {
        return;
      }
      var engineError := engine.Load(ToEngineConfig(c), w.engine);
      if engineError != NoError {
        error := EngineFailed(engineError);
      }
    }

    /** The runtime is ready afterwards exactly when every gate passed. */
    method Load(c: RuntimeConfig, w: LoadWorld)
      requires Valid() && InRange(w)
      modifies this, disk, engine, engine.llama
      ensures Valid()
      ensures IsReady() == ready == (lastError == Succeeded)
      ensures if ready then ValidConfig(c) && exists path :: config == c.(modelPath := path) else config == old(config)
      ensures lastError == Succeeded || lastError.EngineFailed? || (unchanged(engine) && unchanged(engine.llama))
      ensures var m := engine.contextManager; m == null || m == old(engine.contextManager) || fresh(m)
      ensures lastError == GateError(c, old(Stored(c.usagePath)), FoundRegistry(c, old(disk.files), w), w)
      ensures disk.files == LoadFiles(c, old(disk.files), w)
    {
      hide LoadText, CheckStep, SessionStep, LateGateError, ValidLimits, Registry.LoadText, CheckFiles, SessionFiles;
      hide LateFiles;
      ready := false;
      lastError := Succeeded;
      if !ValidConfig(c) {
        lastError := InvalidConfig;
        return;
      }
      var admitted := PassQuota(c, w);
      if !admitted {
        lastError := QuotaExceeded;
        return;
      }
      var path;
      lastError, path := PassLateGates(c, w);
      if lastError != Succeeded {
        return;
      }
      PathIsNoLimit(c, path);
      config := c.(modelPath := path);
      ready := true;
    }

    method UnloadModel()
      requires Valid()
      modifies this, engine, engine.llama
      ensures Valid() && !IsReady() && !ready && engine.contextManager == null
    {
      engine.Unload();
      ready := false;
    }

    /** Stream, then record: what the callbacks saw is recorded also when the generation failed half-way. */
    method GenerateAdmitted(o: GenerateOracle, recordNow: int, recordIo: Io) returns (callbacks: nat)
      requires Valid() && IsReady()
      modifies this`lastError, disk, engine.contextManager
      ensures Valid() && callbacks <= config.maxTokens
      ensures var g := GenerateOutcome(o, config.maxTokens, engine.contextManager.capacity,
                                       old(engine.contextManager.used));
              callbacks == g.callbacks && lastError == if g.error == NoError then Succeeded else EngineFailed(g.error)
      ensures Stored(config.usagePath)
              == RecordStep(config.policy, old(Stored(config.usagePath)), recordNow, callbacks, recordIo)
      ensures disk.files
              == RecordFiles(config.policy, old(disk.files), config.usagePath, recordNow, callbacks, recordIo)
    {
      hide LoadText, RecordStep, GenerateOutcome, RecordFiles;
      GenerateBounds(o, config.maxTokens, engine.contextManager.capacity, engine.contextManager.used);
      var error;
      ghost var decoded;
      error, callbacks, decoded := engine.Generate(o);
      lastError := if error == NoError then Succeeded else EngineFailed(error);
      var _ := usageManager.RecordGeneration(config.policy, recordNow, callbacks, recordIo);
    }

    /** Admit, stream, record: what is recorded is the number of callbacks made. */
    method Generate(o: GenerateOracle, checkNow: int, checkIo: Io, recordNow: int, recordIo: Io)
      returns (callbacks: nat)
      requires Valid()
      modifies this`lastError, disk, engine.contextManager
      ensures Valid() && ready == old(ready)
      ensures !old(IsReady()) ==> lastError == NotLoaded && callbacks == 0 && disk.files == old(disk.files)
      ensures ready ==> callbacks <= config.maxTokens
      ensures ready && !Quota.Admits(config.policy, old(Stored(config.usagePath)), checkNow, checkIo) ==>
                lastError == QuotaExceeded && callbacks == 0
                && engine.contextManager.used == old(engine.contextManager.used)
      ensures ready && Quota.Admits(config.policy, old(Stored(config.usagePath)), checkNow, checkIo) ==>
                var g := GenerateOutcome(o, config.maxTokens, engine.contextManager.capacity,
                                         old(engine.contextManager.used));
                callbacks == g.callbacks && lastError == if g.error == NoError then Succeeded else EngineFailed(g.error)
      ensures Stored(config.usagePath)
              == Quota.Step(config.policy, Quota.World(old(Stored(config.usagePath)), old(IsReady()), 0, 0),
                            Quota.Generation(checkNow, checkIo, recordNow, recordIo, callbacks)).stored
      ensures ready ==>
                disk.files
                == GeneratedFiles(config, old(disk.files), checkNow, checkIo, recordNow, recordIo, callbacks)
    {
      hide LoadText, CheckStep, RecordStep, GenerateOutcome, CheckFiles, RecordFiles;
      callbacks := 0;
      if !IsReady() {
        lastError := NotLoaded;
        return;
      }
      var decision := usageManager.CheckAdmission(config.policy, checkNow, checkIo);
      if decision.outcome != Allowed {
        lastError := QuotaExceeded;
        return;
      }
      callbacks := GenerateAdmitted(o, recordNow, recordIo);
    }
  }

  // ---------- As the quota machine sees it ----------

  method Boot(disk: Disk, idle: RuntimeConfig) returns (r: Runtime)
    ensures fresh(r) && fresh(r.engine) && fresh(r.engine.llama) && r.engine.contextManager == null
    ensures r.Valid() && r.disk == disk && !r.ready
  {
    var llama := new Llama();
    var engine := new Engine(llama, EngineConfig(0, 0, 0, 0));
    r := new Runtime(disk, engine, idle);
  }

  lemma LoadEventReady(w: Quota.World, c: RuntimeConfig, registry: Registry.Loaded, world: LoadWorld)
    ensures Quota.Step(c.policy, w, LoadEvent(c, registry, world)).ready
       <==> GateError(c, w.stored, registry, world) == Succeeded
    ensures AfterLoad(w.stored, c, world) == Quota.Step(c.policy, w, LoadEvent(c, registry, world)).stored
  {
    hide LateGateError, ValidLimits;
  }
}
