/** Quota over whole runs of one process or many: loads, generations, unloads, restarts and clock moves in any
    order, over the persisted usage state. */
module Quota {
  import opened FileSystem
  import opened UsageTypes
  import opened UsageStore
  import opened UsageManager

  /** One thing that happens. A load first checks the configuration, then the quota; only then does it start a
      session and try the remaining gates. A generation that is admitted produces some tokens and records them. */
  datatype Event =
    | LoadAttempt(configValid: bool, checkNow: int, checkIo: Io, sessionNow: int, sessionIo: Io, otherGates: bool)
    | Generation(checkNow: int, checkIo: Io, recordNow: int, recordIo: Io, tokens: nat)
    | Unload
    | Restart

  /** The persisted state, whether a model is ready, and how many generations, of how many tokens in all, have been
      recorded since the last persisted rollover. */
  datatype World = World(stored: Loaded, ready: bool, since: nat, tokensSince: nat)

  /** No state file yet, and no model. */
  const START := World(Loaded(NotFound, FRESH), false, 0, 0)

  ghost predicate ValidWorld(w: World) { ValidState(w.stored.state) }

  predicate Admits(p: UsagePolicy, stored: Loaded, now: int, io: Io) {
    CheckStep(p, stored, now, io).0.outcome == Allowed
  }

  /** A rollover was due and reached the disk. */
  predicate RolledOnDisk(p: UsagePolicy, stored: Loaded, now: int, io: Io) {
    stored.result != Corrupted && RolledOver(p, stored.state, now) && io.Works()
    && ValidState(RollOver(stored.state, now))
  }

  function AfterCheck(p: UsagePolicy, w: World, now: int, io: Io): World {
    var rolled := RolledOnDisk(p, w.stored, now, io);
    World(CheckStep(p, w.stored, now, io).1, w.ready, if rolled then 0 else w.since,
          if rolled then 0 else w.tokensSince)
  }

  function AfterRecord(p: UsagePolicy, w: World, now: int, io: Io, n: nat): World {
    var saved := w.stored.result != Corrupted && io.Works()
                 && ValidState(Record(Current(p, w.stored.state, now), n));
    var anew := RolledOver(p, w.stored.state, now);
    World(RecordStep(p, w.stored, now, n, io), w.ready,
          if !saved then w.since else if anew then 1 else w.since + 1,
          if !saved then w.tokensSince else if anew then n else w.tokensSince + n)
  }

  function Step(p: UsagePolicy, w: World, e: Event): World {
    match e
    case LoadAttempt(configValid, checkNow, checkIo, sessionNow, sessionIo, otherGates) =>
      if !configValid then w.(ready := false)
      else
        var checked := AfterCheck(p, w, checkNow, checkIo);
        if !Admits(p, w.stored, checkNow, checkIo) then checked.(ready := false)
        else World(SessionStep(checked.stored, sessionNow, sessionIo), otherGates, checked.since, checked.tokensSince)
    case Generation(checkNow, checkIo, recordNow, recordIo, tokens) =>
      if !w.ready then w
      else
        var checked := AfterCheck(p, w, checkNow, checkIo);
        if !Admits(p, w.stored, checkNow, checkIo) then checked
        else AfterRecord(p, checked, recordNow, recordIo, tokens)
    case Unload => w.(ready := false)
    case Restart => w.(ready := false)
  }

  function Run(p: UsagePolicy, w: World, events: seq<Event>): World {
    if events == [] then w else Step(p, Run(p, w, events[..|events| - 1]), events[|events| - 1])
  }

  /** The event is a load that passed the configuration check, the quota and all the other gates. */
  predicate LoadPasses(p: UsagePolicy, w: World, e: Event) {
    e.LoadAttempt? && e.configValid && Admits(p, w.stored, e.checkNow, e.checkIo) && e.otherGates
  }

  /** The k-th event is a load that passed, and only generations followed it. */
  ghost predicate LoadedAt(p: UsagePolicy, w: World, events: seq<Event>, k: nat) {
    k < |events| && LoadPasses(p, Run(p, w, events[..k]), events[k])
    && forall j :: k < j < |events| ==> events[j].Generation?
  }

  /** Some load passed, and only generations followed it. */
  ghost predicate LoadedLast(p: UsagePolicy, w: World, events: seq<Event>) {
    exists k: nat :: LoadedAt(p, w, events, k)
  }

  lemma ReadyStep(p: UsagePolicy, w: World, e: Event)
    ensures Step(p, w, e).ready == if e.Generation? then w.ready else LoadPasses(p, w, e)
  {
    hide CheckStep, SessionStep, RecordStep;
  }

  lemma LoadedAtStep(p: UsagePolicy, w: World, events: seq<Event>, k: nat)
    requires events != []
    ensures var n := |events| - 1;
            LoadedAt(p, w, events, k) <==>
              if k == n then LoadPasses(p, Run(p, w, events[..n]), events[n])
              else LoadedAt(p, w, events[..n], k) && events[n].Generation?
  {
    hide LoadPasses, Run;
    var n := |events| - 1;
    if k < n {
      assert events[..n][..k] == events[..k] && events[..n][k] == events[k];
    }
  }

  lemma LoadedLastStep(p: UsagePolicy, w: World, events: seq<Event>)
    requires events != []
    ensures var n := |events| - 1;
            LoadedLast(p, w, events) <==> if events[n].Generation? then LoadedLast(p, w, events[..n])
                                          else LoadPasses(p, Run(p, w, events[..n]), events[n])
  {
    hide LoadPasses, Run, LoadedAt;
    var n := |events| - 1;
    LoadIsNoGeneration(p, Run(p, w, events[..n]), events[n]);
    LoadedAtStep(p, w, events, n);
    forall k: nat ensures LoadedAt(p, w, events, k) <==>
                            if k == n then LoadPasses(p, Run(p, w, events[..n]), events[n])
                            else LoadedAt(p, w, events[..n], k) && events[n].Generation?
    {
      LoadedAtStep(p, w, events, k);
    }
    assert !LoadedAt(p, w, events[..n], n) by { LoadedAtIsInRange(p, w, events[..n], n); }
  }

  lemma LoadedAtIsInRange(p: UsagePolicy, w: World, events: seq<Event>, k: nat)
    ensures LoadedAt(p, w, events, k) ==> k < |events|
  {
  }

  lemma LoadIsNoGeneration(p: UsagePolicy, w: World, e: Event)
    ensures LoadPasses(p, w, e) ==> e.LoadAttempt?
  {
  }

  /** A model is ready exactly when the latest load passed every gate and nothing but generations came since. */
  lemma {:induction false} ReadyExactly(p: UsagePolicy, w: World, events: seq<Event>)
    requires !w.ready
    ensures Run(p, w, events).ready <==> LoadedLast(p, w, events)
  {
    hide Step, LoadPasses;
    if events != [] {
      var before := events[..|events| - 1];
      LoadedLastStep(p, w, events);
      ReadyStep(p, Run(p, w, before), events[|events| - 1]);
      hide LoadedLast;
      ReadyExactly(p, w, before);
    }
  }

  predicate ClockOk(now: int) { 0 <= now <= MAX_TIMESTAMP }

  /** An admitted generation whose save works counts as one message and its tokens, on top of what the check left, or
      alone if the clock then shows a new period; any other leaves the counters as the check left them. */
  lemma GenerationIsCounted(p: UsagePolicy, w: World, e: Event)
    requires ValidWorld(w) && e.Generation? && w.ready && ClockOk(e.recordNow)
    ensures var checked := CheckStep(p, w.stored, e.checkNow, e.checkIo);
            var s, t := checked.1.state, checked.1.state.periodStart;
            var after := Step(p, w, e);
            if checked.0.outcome == Allowed && e.recordIo.Works() then
              after.stored.state ==
              if t <= 0 || e.recordNow < t || e.recordNow - t >= p.resetPeriod then
                UsageState(1, e.recordNow, 1, Min(e.tokens, 1_000_000_000_000_000), s.sessionStart)
              else UsageState(1, t, Min(s.messages + 1, 1_000_000_000_000_000),
                              Min(s.tokens + e.tokens, 1_000_000_000_000_000), s.sessionStart)
            else after.stored == checked.1
  {
    var checked := CheckStep(p, w.stored, e.checkNow, e.checkIo);
    if checked.0.outcome == Allowed && e.recordIo.Works() {
      RecordedExactly(p, checked.1, e.recordNow, e.tokens, e.recordIo);
    }
    hide Evaluate;
  }

  /** A load starts a session exactly when its configuration is valid, the check admits it and the save works; the
      counters are as the check left them, and without a valid configuration nothing is touched. */
  lemma LoadStartsSession(p: UsagePolicy, w: World, e: Event)
    requires ValidWorld(w) && e.LoadAttempt? && ClockOk(e.sessionNow)
    ensures var checked := CheckStep(p, w.stored, e.checkNow, e.checkIo);
            var after := Step(p, w, e).stored;
            if !e.configValid then after == w.stored
            else if checked.0.outcome == Allowed && e.sessionIo.Works() then
              after == Loaded(Ok, checked.1.state.(sessionStart := e.sessionNow))
            else after == checked.1
  {
    hide Evaluate;
  }

  /** The clock stays in the range the store accepts, no generation yields more than m tokens, and the save that
      persists a rollover found by an admission check succeeds. Other saves may fail. */
  ghost predicate Ordinary(e: Event, m: nat) {
    match e
    case LoadAttempt(_, checkNow, checkIo, sessionNow, _, _) =>
      ClockOk(checkNow) && ClockOk(sessionNow) && checkIo.Works()
    case Generation(checkNow, checkIo, recordNow, _, tokens) =>
      ClockOk(checkNow) && ClockOk(recordNow) && checkIo.Works() && tokens <= m
    case Unload => true
    case Restart => true
  }

  // ---------- The limits are never exceeded ----------

  ghost predicate Bounded(p: UsagePolicy, w: World, m: nat, messages: int, tokens: int) {
    && ValidWorld(w)
    && (p.messageLimit > 0 ==> w.stored.state.messages <= Max(messages, p.messageLimit))
    && (p.tokenLimit > 0 ==> w.stored.state.tokens <= Max(tokens, p.tokenLimit - 1 + m))
  }

  lemma StepKeepsBounds(p: UsagePolicy, w: World, e: Event, m: nat, messages: int, tokens: int)
    requires Bounded(p, w, m, messages, tokens) && messages >= 0 && tokens >= 0 && Ordinary(e, m)
    ensures Bounded(p, Step(p, w, e), m, messages, tokens)
  {
  }

  /** After any ordinary run the persisted counters are within the limits, or no further beyond them than they
      were at the start; tokens may overshoot only by the last generation. */
  lemma {:induction false} QuotaIsNeverExceeded(p: UsagePolicy, w: World, events: seq<Event>, m: nat)
    requires ValidWorld(w) && forall i :: 0 <= i < |events| ==> Ordinary(events[i], m)
    ensures var s := Run(p, w, events).stored.state;
            && ValidState(s)
            && (p.messageLimit > 0 ==> s.messages <= Max(w.stored.state.messages, p.messageLimit))
            && (p.tokenLimit > 0 ==> s.tokens <= Max(w.stored.state.tokens, p.tokenLimit - 1 + m))
  {
    if events != [] {
      var before := events[..|events| - 1];
      QuotaIsNeverExceeded(p, w, before, m);
      StepKeepsBounds(p, Run(p, w, before), events[|events| - 1], m, w.stored.state.messages, w.stored.state.tokens);
    }
  }

  // ---------- At most L generations between rollovers ----------

  ghost predicate Counts(p: UsagePolicy, w: World, m: nat) {
    && ValidWorld(w)
    && w.stored.state.messages == Min(w.since, 1_000_000_000_000_000)
    && w.stored.state.tokens == Min(w.tokensSince, 1_000_000_000_000_000)
    && (p.messageLimit > 0 ==> w.since <= p.messageLimit)
    && (p.tokenLimit > 0 ==> w.tokensSince <= p.tokenLimit - 1 + m)
  }

  lemma StepKeepsCounts(p: UsagePolicy, w: World, e: Event, m: nat)
    requires Counts(p, w, m) && Ordinary(e, m) && p.messageLimit <= MAX_COUNTER && p.tokenLimit <= MAX_COUNTER
    ensures Counts(p, Step(p, w, e), m)
  {
  }

  /** Starting without a state file, the persisted counters are the generations recorded since the last rollover and
      their tokens, saturated; between two rollovers at most messageLimit generations are recorded, and their tokens
      pass tokenLimit only by the last of them. */
  lemma {:induction false} AtMostLimitPerPeriod(p: UsagePolicy, events: seq<Event>, m: nat)
    requires forall i :: 0 <= i < |events| ==> Ordinary(events[i], m)
    requires p.messageLimit <= MAX_COUNTER && p.tokenLimit <= MAX_COUNTER
    ensures Counts(p, Run(p, START, events), m)
  {
    if events != [] {
      var before := events[..|events| - 1];
      AtMostLimitPerPeriod(p, before, m);
      StepKeepsCounts(p, Run(p, START, before), events[|events| - 1], m);
    }
  }

  // ---------- What a failing save can cost ----------

  /** A generation admitted on the strength of a rollover the check could not persist, and recorded by a clock reading
      that no longer shows it: the counters it adds to are those of the period the check thought over. */
  predicate RolloverLost(p: UsagePolicy, w: World, e: Event) {
    && e.Generation? && w.ready && Admits(p, w.stored, e.checkNow, e.checkIo)
    && RolledOver(p, w.stored.state, e.checkNow) && !(e.checkIo.Works() && ClockOk(e.checkNow))
    && !RolledOver(p, w.stored.state, e.recordNow) && e.recordIo.Works()
  }

  predicate MessagesOvershoot(p: UsagePolicy, w: World, e: Event) {
    RolloverLost(p, w, e) && w.stored.state.messages == p.messageLimit
  }

  /** With at most m tokens a generation, the bound for tokens is the last count under the limit and m more. */
  predicate TokensOvershoot(p: UsagePolicy, w: World, e: Event, m: nat) {
    RolloverLost(p, w, e) && Min(MAX_COUNTER, w.stored.state.tokens + e.tokens) > p.tokenLimit - 1 + m
  }

  /** Without the assumption that rollovers can be saved, one event passes the message limit exactly when its rollover
      is lost with the limit reached. */
  lemma OvershootExactly(p: UsagePolicy, w: World, e: Event)
    requires ValidWorld(w)
    requires 0 < p.messageLimit < MAX_COUNTER && w.stored.state.messages <= p.messageLimit
    ensures Step(p, w, e).stored.state.messages > p.messageLimit <==> MessagesOvershoot(p, w, e)
  {
  }

  /** And the token bound exactly when its rollover is lost with too few tokens left. */
  lemma TokensOvershootExactly(p: UsagePolicy, w: World, e: Event, m: nat)
    requires ValidWorld(w) && (e.Generation? ==> e.tokens <= m)
    requires 0 < p.tokenLimit && w.stored.state.tokens <= p.tokenLimit - 1 + m
    ensures Step(p, w, e).stored.state.tokens > p.tokenLimit - 1 + m <==> TokensOvershoot(p, w, e, m)
  {
  }

  /** It does happen, with clocks that only go forward: a check before the period began, whose rollover cannot be saved,
      and a recording inside the period. */
  lemma OvershootExample() returns (p: UsagePolicy, w: World, e: Event)
    ensures ValidWorld(w) && e.Generation? && 0 <= e.checkNow <= e.recordNow <= MAX_TIMESTAMP
    ensures 0 < p.messageLimit && 0 < p.tokenLimit
    ensures w.stored.state.messages <= p.messageLimit < Step(p, w, e).stored.state.messages
    ensures e.tokens <= 4 && w.stored.state.tokens <= p.tokenLimit - 1 + 4 < Step(p, w, e).stored.state.tokens
  {
    p := UsagePolicy(0, 1, 10, 60);
    w := World(Loaded(Ok, UsageState(1, 100, 1, 13, 0)), true, 1, 13);
    var failing, working := Io(false, true, 0, true), Io(true, true, 0, true);
    e := Generation(50, failing, 150, working, 4);
  }

  lemma StepKeepsValid(p: UsagePolicy, w: World, e: Event)
    requires ValidWorld(w)
    ensures ValidWorld(Step(p, w, e))
  {
    hide Evaluate;
  }

  lemma {:induction false} RunKeepsValid(p: UsagePolicy, w: World, events: seq<Event>)
    requires ValidWorld(w)
    ensures ValidWorld(Run(p, w, events))
  {
    hide Step, ValidWorld;
    if events != [] {
      RunKeepsValid(p, w, events[..|events| - 1]);
      StepKeepsValid(p, Run(p, w, events[..|events| - 1]), events[|events| - 1]);
    }
  }

  /** Every state of the run, the first and the last included, is within a bound on messages. */
  ghost predicate MessagesWithin(p: UsagePolicy, w: World, events: seq<Event>) {
    forall i :: 0 <= i <= |events| ==> Run(p, w, events[..i]).stored.state.messages <= p.messageLimit
  }

  ghost predicate TokensWithin(p: UsagePolicy, w: World, events: seq<Event>, m: nat) {
    forall i :: 0 <= i <= |events| ==> Run(p, w, events[..i]).stored.state.tokens <= p.tokenLimit - 1 + m
  }

  ghost predicate NoMessagesOvershoot(p: UsagePolicy, w: World, events: seq<Event>) {
    forall i :: 0 <= i < |events| ==> !MessagesOvershoot(p, Run(p, w, events[..i]), events[i])
  }

  ghost predicate NoTokensOvershoot(p: UsagePolicy, w: World, events: seq<Event>, m: nat) {
    forall i :: 0 <= i < |events| ==> !TokensOvershoot(p, Run(p, w, events[..i]), events[i], m)
  }

  lemma PrefixesOfPrefix(events: seq<Event>)
    requires events != []
    ensures var n := |events| - 1;
            events[..n + 1] == events && forall i :: 0 <= i <= n ==> events[..n][..i] == events[..i]
  {
  }

  /** Over whole runs, whatever the clock reads and whichever saves fail: a run that starts within the message limit
      stays within it if and only if no event of it overshoots. */
  lemma {:induction false} MessagesWithinExactly(p: UsagePolicy, w: World, events: seq<Event>)
    requires ValidWorld(w) && 0 < p.messageLimit < MAX_COUNTER && w.stored.state.messages <= p.messageLimit
    ensures MessagesWithin(p, w, events) <==> NoMessagesOvershoot(p, w, events)
  {
    hide Step, MessagesOvershoot, ValidWorld;
    if events != [] {
      var n := |events| - 1;
      var before := events[..n];
      PrefixesOfPrefix(events);
      MessagesWithinExactly(p, w, before);
      RunKeepsValid(p, w, before);
      assert MessagesWithin(p, w, events)
        <==> MessagesWithin(p, w, before) && Run(p, w, events).stored.state.messages <= p.messageLimit;
      assert NoMessagesOvershoot(p, w, events)
        <==> NoMessagesOvershoot(p, w, before) && !MessagesOvershoot(p, Run(p, w, before), events[n]);
      if MessagesWithin(p, w, before) {
        assert before[..n] == before;
        OvershootExactly(p, Run(p, w, before), events[n]);
      }
    }
  }

  /** And within the token bound if and only if no event of it overshoots that. */
  lemma {:induction false} TokensWithinExactly(p: UsagePolicy, w: World, events: seq<Event>, m: nat)
    requires ValidWorld(w) && 0 < p.tokenLimit && w.stored.state.tokens <= p.tokenLimit - 1 + m
    requires forall i :: 0 <= i < |events| ==> events[i].Generation? ==> events[i].tokens <= m
    ensures TokensWithin(p, w, events, m) <==> NoTokensOvershoot(p, w, events, m)
  {
    hide Step, TokensOvershoot, ValidWorld;
    if events != [] {
      var n := |events| - 1;
      var before := events[..n];
      PrefixesOfPrefix(events);
      TokensWithinExactly(p, w, before, m);
      RunKeepsValid(p, w, before);
      assert TokensWithin(p, w, events, m)
        <==> TokensWithin(p, w, before, m) && Run(p, w, events).stored.state.tokens <= p.tokenLimit - 1 + m;
      assert NoTokensOvershoot(p, w, events, m)
        <==> NoTokensOvershoot(p, w, before, m) && !TokensOvershoot(p, Run(p, w, before), events[n], m);
      if TokensWithin(p, w, before, m) {
        assert before[..n] == before;
        TokensOvershootExactly(p, Run(p, w, before), events[n], m);
      }
    }
  }

  // ---------- An expired session ----------

  ghost predicate NotBefore(e: Event, t: int) {
    match e
    case LoadAttempt(_, checkNow, _, sessionNow, _, _) => t <= checkNow && t <= sessionNow
    case Generation(checkNow, _, recordNow, _, _) => t <= checkNow && t <= recordNow
    case Unload => true
    case Restart => true
  }

  lemma ExpiredStep(p: UsagePolicy, w: World, e: Event, t: int)
    requires TimeExhausted(p, w.stored.state, t) && NotBefore(e, t)
    ensures Step(p, w, e).stored.state.sessionStart == w.stored.state.sessionStart
    ensures !Step(p, w, e).ready || w.ready
    ensures e.LoadAttempt? ==> !Step(p, w, e).ready
    ensures e.LoadAttempt? || e.Generation? ==> !Admits(p, w.stored, e.checkNow, e.checkIo)
  {
  }

  /** Once a session has run out of time, and the clock does not go back, every later load and generation is
      denied: a load checks admission before it restarts the session clock, so no load ever restarts it. */
  lemma {:induction false} ExpiredSessionsStayExpired(p: UsagePolicy, w: World, events: seq<Event>, t: int)
    requires TimeExhausted(p, w.stored.state, t)
    requires forall i :: 0 <= i < |events| ==> NotBefore(events[i], t)
    ensures TimeExhausted(p, Run(p, w, events).stored.state, t)
    ensures forall i :: 0 <= i < |events| && (events[i].LoadAttempt? || events[i].Generation?) ==>
                          !Admits(p, Run(p, w, events[..i]).stored, events[i].checkNow, events[i].checkIo)
  {
    if events != [] {
      var before := events[..|events| - 1];
      ExpiredSessionsStayExpired(p, w, before, t);
      ExpiredStep(p, Run(p, w, before), events[|events| - 1], t);
      assert forall i :: 0 <= i < |before| ==> before[..i] == events[..i] && before[i] == events[i];
    }
  }
}
