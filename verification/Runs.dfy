/** Whole runs of the real pipeline: loads, generations, unloads and restarts in any order, with any configurations,
    over one disk. */
module Runs {
  import opened Wrappers
  import opened FileSystem
  import opened UsageTypes
  import opened UsageStore
  import opened UsageManager
  import opened Inference
  import opened Runtime
  import opened Overlap
  import Quota
  import Registry

  // ---------- A run as a function of what happens ----------

  /** The disk, and whether a runtime is ready and with what configuration. */
  datatype Moment = Moment(files: Files, ready: bool, config: RuntimeConfig)

  /** What one command met, and how many callbacks a generation made. */
  datatype Happening =
    | Loading(config: RuntimeConfig, world: LoadWorld)
    | Generating(checkNow: int, checkIo: Io, recordNow: int, recordIo: Io, callbacks: nat)
    | Unloading
    | Restarting

  function Usage(m: Moment, path: string): Loaded { LoadText(Get(m.files, path)) }

  function Stored(m: Moment, c: RuntimeConfig): Registry.Loaded { Registry.LoadText(Get(m.files, c.registryPath)) }

  predicate Passes(m: Moment, c: RuntimeConfig, w: LoadWorld) {
    GateError(c, Usage(m, c.usagePath), FoundRegistry(c, m.files, w), w) == Succeeded
  }

  function Happens(m: Moment, h: Happening): Moment {
    match h
    case Loading(c, w) => Moment(LoadFiles(c, m.files, w), Passes(m, c, w), if Passes(m, c, w) then c else m.config)
    case Generating(checkNow, checkIo, recordNow, recordIo, callbacks) =>
      if !m.ready then m
      else m.(files := GeneratedFiles(m.config, m.files, checkNow, checkIo, recordNow, recordIo, callbacks))
    case Unloading => m.(ready := false)
    case Restarting => m.(ready := false)
  }

  function Course(m: Moment, hs: seq<Happening>): Moment {
    if hs == [] then m else Happens(Course(m, hs[..|hs| - 1]), hs[|hs| - 1])
  }

  // ---------- The run as a run of the quota machine ----------

  function EventOf(m: Moment, h: Happening): Quota.Event {
    match h
    case Loading(c, w) => LoadEvent(c, FoundRegistry(c, m.files, w), w)
    case Generating(checkNow, checkIo, recordNow, recordIo, callbacks) =>
      Quota.Generation(checkNow, checkIo, recordNow, recordIo, callbacks)
    case Unloading => Quota.Unload
    case Restarting => Quota.Restart
  }

  function EventsOf(m: Moment, hs: seq<Happening>): (events: seq<Quota.Event>)
    ensures |events| == |hs|
  {
    if hs == [] then []
    else
      var before := hs[..|hs| - 1];
      EventsOf(m, before) + [EventOf(Course(m, before), hs[|hs| - 1])]
  }

  /** The load writes its registry over the usage file. */
  predicate Disturbs(m: Moment, h: Happening) {
    h.Loading? &&
    (|| Overwrites(h.config, Usage(m, h.config.usagePath), h.world)
     || Erases(h.config, Usage(m, h.config.usagePath), Stored(m, h.config), h.world))
  }

  ghost predicate Undisturbed(m: Moment, hs: seq<Happening>) {
    forall i :: 0 <= i < |hs| ==> !Disturbs(Course(m, hs[..i]), hs[i])
  }

  /** Every load uses this policy and this usage file. The registries may be anywhere. */
  ghost predicate AllUse(hs: seq<Happening>, policy: UsagePolicy, path: string) {
    forall i :: 0 <= i < |hs| && hs[i].Loading? ==> hs[i].config.policy == policy && hs[i].config.usagePath == path
  }

  predicate ReadyUses(m: Moment, policy: UsagePolicy, path: string) {
    m.ready ==> m.config.policy == policy && m.config.usagePath == path
  }

  /** The quota machine at the same point of the run. */
  function Prescribed(m: Moment, hs: seq<Happening>, policy: UsagePolicy, path: string): Quota.World {
    Quota.Run(policy, Quota.World(Usage(m, path), m.ready, 0, 0), EventsOf(m, hs))
  }

  /** At every moment of the run the usage file holds what the quota machine prescribes. */
  ghost predicate Follows(m: Moment, hs: seq<Happening>, policy: UsagePolicy, path: string) {
    forall i :: 0 <= i <= |hs| ==> Usage(Course(m, hs[..i]), path) == Prescribed(m, hs[..i], policy, path).stored
  }

  lemma OneHappening(m: Moment, h: Happening, q: Quota.World, policy: UsagePolicy, path: string)
    requires AllUse([h], policy, path) && ReadyUses(m, policy, path)
    requires q.stored == Usage(m, path) && q.ready == m.ready
    ensures ReadyUses(Happens(m, h), policy, path)
    ensures Quota.Step(policy, q, EventOf(m, h)).ready == Happens(m, h).ready
    ensures Usage(Happens(m, h), path) == Quota.Step(policy, q, EventOf(m, h)).stored <==> !Disturbs(m, h)
  {
    hide LoadText, Registry.LoadText, LoadFiles, AfterLoad, GateError, CheckStep, RecordStep, Overwrites, Erases;
    hide CheckFiles, RecordFiles, SessionFiles, ValidConfig, FoundRegistry;
    assert [h][0] == h;
    match h
    case Loading(c, w) =>
      UsageKeptExactly(c, m.files, w);
      LoadEventReady(q, c, FoundRegistry(c, m.files, w), w);
      hide Quota.Step;
    case Generating(checkNow, checkIo, recordNow, recordIo, callbacks) =>
      StepsOnFiles(policy, m.files, path, checkNow, 0, checkIo);
      StepsOnFiles(policy, CheckFiles(policy, m.files, path, checkNow, checkIo), path, recordNow, callbacks, recordIo);
    case Unloading =>
    case Restarting =>
  }

  lemma RunPrefix(m: Moment, hs: seq<Happening>, policy: UsagePolicy, path: string)
    requires hs != []
    ensures var n := |hs| - 1;
            && Prescribed(m, hs, policy, path)
               == Quota.Step(policy, Prescribed(m, hs[..n], policy, path), EventOf(Course(m, hs[..n]), hs[n]))
  {
    hide Quota.Step, EventOf, Happens;
    var events := EventsOf(m, hs);
    assert events[..|events| - 1] == EventsOf(m, hs[..|hs| - 1]);
  }

  lemma PrefixesOfPrefix(hs: seq<Happening>)
    requires hs != []
    ensures var n := |hs| - 1;
            hs[..n + 1] == hs && forall i :: 0 <= i <= n ==> hs[..n][..i] == hs[..i]
  {
  }

  lemma FollowsStep(m: Moment, hs: seq<Happening>, policy: UsagePolicy, path: string)
    requires hs != []
    ensures Follows(m, hs, policy, path)
       <==> Follows(m, hs[..|hs| - 1], policy, path)
            && Usage(Course(m, hs), path) == Prescribed(m, hs, policy, path).stored
  {
    hide Usage, Course, Prescribed;
    PrefixesOfPrefix(hs);
  }

  lemma UndisturbedStep(m: Moment, hs: seq<Happening>)
    requires hs != []
    ensures Undisturbed(m, hs)
       <==> Undisturbed(m, hs[..|hs| - 1]) && !Disturbs(Course(m, hs[..|hs| - 1]), hs[|hs| - 1])
  {
    hide Disturbs, Course;
    PrefixesOfPrefix(hs);
  }

  /** For any configurations that share policy and usage file, wherever their registries are, and whatever fails: the
      usage file follows the quota machine throughout the run if and only if no load of it overwrites or erases it. A
      run that does follow it is also ready when the machine is. */
  lemma {:induction false} FollowsExactly(m: Moment, hs: seq<Happening>, policy: UsagePolicy, path: string)
    requires AllUse(hs, policy, path) && ReadyUses(m, policy, path)
    ensures Follows(m, hs, policy, path) <==> Undisturbed(m, hs)
    ensures Follows(m, hs, policy, path) ==>
              Usage(Course(m, hs), path) == Prescribed(m, hs, policy, path).stored
              && Course(m, hs).ready == Prescribed(m, hs, policy, path).ready
  {
    hide Usage, Happens, EventOf, Quota.Step, Disturbs;
    if hs == [] {
      assert hs[..0] == [];
    } else {
      var before, h := hs[..|hs| - 1], hs[|hs| - 1];
      var now := Course(m, before);
      FollowsExactly(m, before, policy, path);
      FollowsStep(m, hs, policy, path);
      UndisturbedStep(m, hs);
      hide Follows, Undisturbed;
      RunPrefix(m, hs, policy, path);
      CourseUses(m, before, policy, path);
      assert Course(m, hs) == Happens(now, h);
      hide Prescribed, Course;
      if Follows(m, before, policy, path) {
        OneHappening(now, h, Prescribed(m, before, policy, path), policy, path);
      }
    }
  }

  lemma {:induction false} CourseUses(m: Moment, hs: seq<Happening>, policy: UsagePolicy, path: string)
    requires AllUse(hs, policy, path) && ReadyUses(m, policy, path)
    ensures ReadyUses(Course(m, hs), policy, path)
  {
    hide Passes, LoadFiles, GeneratedFiles;
    if hs != [] {
      CourseUses(m, hs[..|hs| - 1], policy, path);
    }
  }

  /** A registry that is neither the usage file nor has it as its temporary file disturbs nothing, though the usage
      file's temporary one may be the registry. */
  lemma ElsewhereIsUndisturbed(m: Moment, hs: seq<Happening>)
    requires forall i :: 0 <= i < |hs| && hs[i].Loading? ==>
                           hs[i].config.usagePath != hs[i].config.registryPath
                           && hs[i].config.usagePath != TempPath(hs[i].config.registryPath)
    ensures Undisturbed(m, hs)
  {
    hide Usage, Stored, Course, TempPath, Admitted, UsageOnDisk, Imports;
  }

  // ---------- The limits over whole runs ----------

  /** The clock and the rollover saves are ordinary, and every load has this token limit. */
  ghost predicate Ordinary(h: Happening, maxTokens: nat) {
    match h
    case Loading(c, w) =>
      c.maxTokens == maxTokens && Quota.ClockOk(w.checkNow) && Quota.ClockOk(w.sessionNow) && w.checkIo.Works()
    case Generating(checkNow, checkIo, recordNow, recordIo, callbacks) =>
      Quota.ClockOk(checkNow) && Quota.ClockOk(recordNow) && checkIo.Works() && callbacks <= maxTokens
    case Unloading => true
    case Restarting => true
  }

  lemma {:induction false} EventsAreOrdinary(m: Moment, hs: seq<Happening>, maxTokens: nat)
    requires forall i :: 0 <= i < |hs| ==> Ordinary(hs[i], maxTokens)
    ensures forall i :: 0 <= i < |hs| ==> Quota.Ordinary(EventsOf(m, hs)[i], maxTokens)
  {
    hide FoundRegistry, LateGateError, ValidConfig, Course;
    if hs != [] {
      EventsAreOrdinary(m, hs[..|hs| - 1], maxTokens);
      assert Ordinary(hs[|hs| - 1], maxTokens);
    }
  }

  /** An ordinary run in which no load disturbs the usage file keeps the limits, and is ready exactly when the latest
      load passed every gate and only generations followed. */
  lemma LimitsHold(m: Moment, hs: seq<Happening>, policy: UsagePolicy, maxTokens: nat, path: string)
    requires !m.ready && AllUse(hs, policy, path) && Undisturbed(m, hs)
    requires forall i :: 0 <= i < |hs| ==> Ordinary(hs[i], maxTokens)
    ensures var before, after := Usage(m, path).state, Usage(Course(m, hs), path).state;
            && (policy.messageLimit > 0 ==> after.messages <= Max(before.messages, policy.messageLimit))
            && (policy.tokenLimit > 0 ==> after.tokens <= Max(before.tokens, policy.tokenLimit - 1 + maxTokens))
    ensures Usage(Course(m, hs), path) == Prescribed(m, hs, policy, path).stored
    ensures Course(m, hs).ready
       <==> Quota.LoadedLast(policy, Quota.World(Usage(m, path), false, 0, 0), EventsOf(m, hs))
  {
    FollowsExactly(m, hs, policy, path);
    EventsAreOrdinary(m, hs, maxTokens);
    LoadedStatesAreValid(Get(m.files, path));
    hide LoadText, Course, Quota.Ordinary, Ordinary, EventsOf, Quota.LoadedLast;
    assert hs[..|hs|] == hs;
    var start := Quota.World(Usage(m, path), false, 0, 0);
    Quota.QuotaIsNeverExceeded(policy, start, EventsOf(m, hs), maxTokens);
    Quota.ReadyExactly(policy, start, EventsOf(m, hs));
  }

  // ---------- The real runtime ----------

  datatype Command =
    | DoLoad(config: RuntimeConfig, world: LoadWorld)
    | DoGenerate(oracle: GenerateOracle, checkNow: int, checkIo: Io, recordNow: int, recordIo: Io)
    | DoUnload
    | DoRestart

  /** What happened is what was asked; only the number of callbacks is the outcome's, within the token limit in
      force. */
  ghost predicate Answers(m: Moment, c: Command, h: Happening) {
    match c
    case DoLoad(config, world) => h == Loading(config, world)
    case DoGenerate(_, checkNow, checkIo, recordNow, recordIo) =>
      && h.Generating? && h == Generating(checkNow, checkIo, recordNow, recordIo, h.callbacks)
      && h.callbacks <= if m.ready && m.config.maxTokens >= 0 then m.config.maxTokens else 0
    case DoUnload => h == Unloading
    case DoRestart => h == Restarting
  }

  /** The runtime and the disk are at this moment. */
  ghost predicate IsAt(r: Runtime, m: Moment)
    reads r, r.disk, r.engine, r.engine.Owned()
  {
    && r.Valid() && r.disk.files == m.files && r.ready == m.ready
    && (r.ready ==> exists path :: r.config == m.config.(modelPath := path))
  }

  /** One command. */
  method Perform(before: Runtime, idle: RuntimeConfig, command: Command, ghost m: Moment)
    returns (r: Runtime, ghost h: Happening)
    requires IsAt(before, m) && (command.DoLoad? ==> InRange(command.world))
    modifies before, before.disk, before.engine, before.engine.llama, before.engine.contextManager
    ensures IsAt(r, Happens(m, h)) && Answers(m, command, h) && r.disk == before.disk
    ensures r == before || (fresh(r) && fresh(r.engine) && fresh(r.engine.llama))
    ensures var c := r.engine.contextManager; c == null || c == old(before.engine.contextManager) || fresh(c)
  {
    hide LoadText, Registry.LoadText, GateError, ValidLimits, LoadFiles, FoundRegistry, CheckFiles, RecordFiles;
    r := before;
    match command {
      case DoLoad(config, world) =>
        r.Load(config, world);
        h := Loading(config, world);
      case DoGenerate(oracle, checkNow, checkIo, recordNow, recordIo) =>
        var callbacks := r.Generate(oracle, checkNow, checkIo, recordNow, recordIo);
        h := Generating(checkNow, checkIo, recordNow, recordIo, callbacks);
      case DoUnload =>
        r.UnloadModel();
        h := Unloading;
      case DoRestart =>
        r.UnloadModel();
        r := Boot(before.disk, idle);
        h := Restarting;
    }
  }

  /** Runtimes driven by any commands over one disk, with any configurations, restarts included: the disk and the
      readiness are those of the course of what happened. So if the loads share policy, usage file and token limit,
      the happenings are ordinary and no load disturbs the usage file, the limits hold, whatever model, sampler and
      callbacks do. */
  method Drive(disk: Disk, idle: RuntimeConfig, commands: seq<Command>, ghost policy: UsagePolicy, ghost maxTokens: nat,
               ghost path: string)
    returns (r: Runtime, ghost hs: seq<Happening>)
    requires forall i :: 0 <= i < |commands| && commands[i].DoLoad? ==> InRange(commands[i].world)
    modifies disk
    ensures var start := Moment(old(disk.files), false, idle);
            && |hs| == |commands|
            && (forall i :: 0 <= i < |hs| ==> Answers(Course(start, hs[..i]), commands[i], hs[i]))
            && r.Valid() && disk.files == Course(start, hs).files && r.IsReady() == Course(start, hs).ready
            && (AllUse(hs, policy, path) && Undisturbed(start, hs)
                && (forall i :: 0 <= i < |hs| ==> Ordinary(hs[i], maxTokens)) ==>
                  var before, after := Usage(start, path).state, LoadText(Get(disk.files, path)).state;
                  && LoadText(Get(disk.files, path)) == Prescribed(start, hs, policy, path).stored
                  && (policy.messageLimit > 0 ==> after.messages <= Max(before.messages, policy.messageLimit))
                  && (policy.tokenLimit > 0 ==> after.tokens <= Max(before.tokens, policy.tokenLimit - 1 + maxTokens))
                  && (r.IsReady() <==> Quota.LoadedLast(policy, Quota.World(Usage(start, path), false, 0, 0),
                                                        EventsOf(start, hs))))
  {
    hide LoadText, Happens, Answers, Ordinary, Quota.LoadedLast, EventsOf, Disturbs;
    ghost var start := Moment(disk.files, false, idle);
    hs := [];
    r := Boot(disk, idle);
    for i := 0 to |commands|
      invariant fresh(r) && fresh(r.engine) && fresh(r.engine.llama) && r.disk == disk
      invariant r.engine.contextManager == null || fresh(r.engine.contextManager)
      invariant |hs| == i && IsAt(r, Course(start, hs))
      invariant forall j :: 0 <= j < i ==> Answers(Course(start, hs[..j]), commands[j], hs[j])
    {
      ghost var h;
      r, h := Perform(r, idle, commands[i], Course(start, hs));
      assert (hs + [h])[..i] == hs && forall j :: 0 <= j < i ==> (hs + [h])[..j] == hs[..j];
      hs := hs + [h];
    }
    if AllUse(hs, policy, path) && Undisturbed(start, hs) && forall i :: 0 <= i < |hs| ==> Ordinary(hs[i], maxTokens) {
      LimitsHold(start, hs, policy, maxTokens, path);
    }
  }
}
