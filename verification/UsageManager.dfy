/** The usage manager: every call reloads the persisted state, may roll the period over, and saves. The clock and
    the outcome of each save are parameters. */
module UsageManager {
  import opened Wrappers
  import opened FileSystem
  import opened UsageTypes
  import opened UsageStore

  // ---------- The calls as functions of what is persisted ----------

  function AfterSave(stored: Loaded, s: UsageState, io: Io): Loaded {
    if ValidState(s) && io.Works() then Loaded(Ok, s) else stored
  }

  const DENIED_CORRUPTED := Decision(StateCorrupted, 0, 0, 0, 0)

  function CheckStep(p: UsagePolicy, stored: Loaded, now: int, io: Io): (Decision, Loaded) {
    if stored.result == Corrupted then (DENIED_CORRUPTED, stored)
    else
      var s := Current(p, stored.state, now);
      (Evaluate(p, s, now), if RolledOver(p, stored.state, now) then AfterSave(stored, s, io) else stored)
  }

  function SessionStep(stored: Loaded, now: int, io: Io): Loaded {
    if stored.result == Corrupted then stored else AfterSave(stored, stored.state.(sessionStart := now), io)
  }

  function RecordStep(p: UsagePolicy, stored: Loaded, now: int, n: int, io: Io): Loaded {
    if n < 0 || stored.result == Corrupted then stored
    else AfterSave(stored, Record(Current(p, stored.state, now), n), io)
  }

  /** A check at which a rollover is due never finds messages or tokens exhausted, and all of both are left; what it
      persists is a period that begins now with empty counters and the same session. */
  lemma RolloverStartsAfresh(p: UsagePolicy, stored: Loaded, now: int, io: Io)
    requires stored.result != Corrupted
    requires var t := stored.state.periodStart; t <= 0 || now < t || now - t >= p.resetPeriod
    ensures var (d, after) := CheckStep(p, stored, now, io);
            && d.outcome in {Allowed, ExhaustedTime}
            && (d.outcome == ExhaustedTime <==> TimeExhausted(p, stored.state, now))
            && d.messagesRemaining == Max(0, p.messageLimit) && d.tokensRemaining == Max(0, p.tokenLimit)
            && (after == stored || after.state.periodStart == now)
            && (io.Works() && 0 <= now <= 4102444800 && ValidState(stored.state) ==>
                  after == Loaded(Ok, UsageState(1, now, 0, 0, stored.state.sessionStart)))
  {
  }

  /** A check at which none is due writes nothing, and answers from the counters as they are. */
  lemma NoRolloverKeepsCounters(p: UsagePolicy, stored: Loaded, now: int, io: Io)
    requires stored.result != Corrupted
    requires var t := stored.state.periodStart; 0 < t <= now < t + p.resetPeriod
    ensures var (d, after) := CheckStep(p, stored, now, io);
            && after == stored
            && (d.outcome == Allowed <==>
                  && !TimeExhausted(p, stored.state, now)
                  && (p.messageLimit > 0 ==> stored.state.messages < p.messageLimit)
                  && (p.tokenLimit > 0 ==> stored.state.tokens < p.tokenLimit))
  {
  }

  /** A recorded generation is one message and its tokens, on top of those of the period it falls in. */
  lemma RecordedExactly(p: UsagePolicy, stored: Loaded, now: int, n: nat, io: Io)
    requires stored.result != Corrupted && ValidState(stored.state) && io.Works() && 0 <= now <= 4102444800
    ensures var after, s := RecordStep(p, stored, now, n, io), stored.state;
            var t := s.periodStart;
            var due := t <= 0 || now < t || now - t >= p.resetPeriod;
            after == Loaded(Ok, if due then UsageState(1, now, 1, Min(n, 1_000_000_000_000_000), s.sessionStart)
                                else UsageState(1, t, Min(s.messages + 1, 1_000_000_000_000_000),
                                                Min(s.tokens + n, 1_000_000_000_000_000), s.sessionStart))
  {
  }

  // ---------- Many generations in one period ----------

  datatype RecordCall = RecordCall(now: int, n: int, io: Io)

  /** The calls that count: a negative amount is refused, and a failing save loses the generation. */
  predicate Counts(c: RecordCall) { c.n >= 0 && c.io.Works() }

  function CountedCalls(calls: seq<RecordCall>): nat {
    if calls == [] then 0
    else CountedCalls(calls[..|calls| - 1]) + if Counts(calls[|calls| - 1]) then 1 else 0
  }

  function CountedTokens(calls: seq<RecordCall>): nat {
    if calls == [] then 0
    else CountedTokens(calls[..|calls| - 1]) + if Counts(calls[|calls| - 1]) then calls[|calls| - 1].n else 0
  }

  /** Each call reloads what the one before persisted. */
  function RecordRun(p: UsagePolicy, stored: Loaded, calls: seq<RecordCall>): Loaded {
    if calls == [] then stored
    else
      var c := calls[|calls| - 1];
      RecordStep(p, RecordRun(p, stored, calls[..|calls| - 1]), c.now, c.n, c.io)
  }

  /** While the clock stays in the period, the persisted counters are the saturated totals of the calls that count,
      every state persisted is valid, and no addition leaves the 64-bit range. */
  lemma {:induction false} CountersAreSaturatedTotals(p: UsagePolicy, stored: Loaded, calls: seq<RecordCall>)
    requires stored.result == Ok && ValidState(stored.state)
    requires forall i :: 0 <= i < |calls| ==> !RolledOver(p, stored.state, calls[i].now)
    ensures var r := RecordRun(p, stored, calls);
            && r.result == Ok && ValidState(r.state)
            && r.state.messages == Min(MAX_COUNTER, stored.state.messages + CountedCalls(calls))
            && r.state.tokens == Min(MAX_COUNTER, stored.state.tokens + CountedTokens(calls))
            && r.state.periodStart == stored.state.periodStart && r.state.sessionStart == stored.state.sessionStart
  {
    if calls != [] {
      CountersAreSaturatedTotals(p, stored, calls[..|calls| - 1]);
    }
  }

  // ---------- The calls as functions of the files ----------

  function CheckFiles(p: UsagePolicy, files: Files, path: string, now: int, io: Io): Files {
    var stored := LoadText(Get(files, path));
    if stored.result == Corrupted || !RolledOver(p, stored.state, now) then files
    else SavedState(files, path, RollOver(stored.state, now), io)
  }

  function SessionFiles(files: Files, path: string, now: int, io: Io): Files {
    var stored := LoadText(Get(files, path));
    if stored.result == Corrupted then files else SavedState(files, path, stored.state.(sessionStart := now), io)
  }

  function RecordFiles(p: UsagePolicy, files: Files, path: string, now: int, n: int, io: Io): Files {
    var stored := LoadText(Get(files, path));
    if n < 0 || stored.result == Corrupted then files
    else SavedState(files, path, Record(Current(p, stored.state, now), n), io)
  }

  /** On the usage file the two views agree, and no other file but its temporary neighbour is touched. */
  lemma StepsOnFiles(p: UsagePolicy, files: Files, path: string, now: int, n: int, io: Io)
    ensures var stored := LoadText(Get(files, path));
            && LoadText(Get(CheckFiles(p, files, path, now, io), path)) == CheckStep(p, stored, now, io).1
            && LoadText(Get(SessionFiles(files, path, now, io), path)) == SessionStep(stored, now, io)
            && LoadText(Get(RecordFiles(p, files, path, now, n, io), path)) == RecordStep(p, stored, now, n, io)
            && OnlyTouches(files, CheckFiles(p, files, path, now, io), path)
            && OnlyTouches(files, SessionFiles(files, path, now, io), path)
            && OnlyTouches(files, RecordFiles(p, files, path, now, n, io), path)
  {
    hide LoadText, SavedState, RolledOver, Evaluate, ValidState;
    var s := LoadText(Get(files, path)).state;
    LoadOfSavedState(files, path, RollOver(s, now), io);
    LoadOfSavedState(files, path, s.(sessionStart := now), io);
    LoadOfSavedState(files, path, Record(Current(p, s, now), n), io);
  }

  class Manager {
    const disk: Disk
    const statePath: string

    constructor (disk: Disk, statePath: string)
      ensures this.disk == disk && this.statePath == statePath
    {
      this.disk, this.statePath := disk, statePath;
    }

    ghost function Stored(): Loaded
      reads disk
    {
      LoadText(Get(disk.files, statePath))
    }

    /** The admission check. It records nothing; it only persists a rollover, best effort. */
    method CheckAdmission(policy: UsagePolicy, now: int, io: Io) returns (decision: Decision)
      modifies disk
      ensures (decision, Stored()) == CheckStep(policy, old(Stored()), now, io)
      ensures disk.files == CheckFiles(policy, old(disk.files), statePath, now, io)
    {
      hide LoadText, StateText, CrashSafe, ValidState, RolledOver, Evaluate, SavedState;
      var loaded := Load(disk, statePath);
      if loaded.result == Corrupted {
        return DENIED_CORRUPTED;
      }
      var state := loaded.state;
      if RolledOver(policy, state, now) {
        state := RollOver(state, now);
        var _ := Save(disk, statePath, state, io);
      }
      decision := Evaluate(policy, state, now);
    }

    method SessionStart(now: int, io: Io) returns (ok: bool)
      modifies disk
      ensures Stored() == SessionStep(old(Stored()), now, io)
      ensures ok ==> Stored() == Loaded(Ok, old(Stored()).state.(sessionStart := now))
      ensures disk.files == SessionFiles(old(disk.files), statePath, now, io)
    {
      hide LoadText, StateText, CrashSafe, ValidState, SavedState;
      var loaded := Load(disk, statePath);
      if loaded.result == Corrupted {
        return false;
      }
      ok := Save(disk, statePath, loaded.state.(sessionStart := now), io);
    }

    /** Counts one generation of n tokens against the current period. */
    method RecordGeneration(policy: UsagePolicy, now: int, n: int, io: Io) returns (ok: bool)
      modifies disk
      ensures Stored() == RecordStep(policy, old(Stored()), now, n, io)
      ensures ok <==> n >= 0 && old(Stored()).result != Corrupted && io.Works()
                      && ValidState(Record(Current(policy, old(Stored()).state, now), n))
      ensures disk.files == RecordFiles(policy, old(disk.files), statePath, now, n, io)
    {
      hide LoadText, StateText, CrashSafe, ValidState, RolledOver, SavedState;
      if n < 0 {
        return false;
      }
      var loaded := Load(disk, statePath);
      if loaded.result == Corrupted {
        return false;
      }
      var state := loaded.state;
      if RolledOver(policy, state, now) {
        state := RollOver(state, now);
      }
      var messages, tokens := state.messages, state.tokens;
      if messages < MAX_COUNTER {
        messages := messages + 1;
      }
      var headroom := MAX_COUNTER - tokens;
      if headroom > 0 {
        tokens := tokens + Min(n, headroom);
      }
      state := state.(messages := messages, tokens := tokens);
      ok := Save(disk, statePath, state, io);
    }
  }
}
