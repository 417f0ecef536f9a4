/** Request handlers of the dashboard running concurrently: whatever changes or uses the runtime does so between taking
    and releasing one mutex, and any handler may be paused between any two of its actions. The health report alone reads
    the runtime pointer without the mutex, at any moment. */
module Interleaving {
  import opened Wrappers
  import opened Reload
  import opened Dashboard

  /** How far a handler has come. What follows Deciding and precedes Done runs with the mutex held. */
  datatype Stage =
    | Waiting(handler: Handler)
    | Deciding(handler: Handler)
    | Destroying(next: Option<(ConfigState, Status)>)
    | Clearing(next: Option<(ConfigState, Status)>)
    | Allocating(candidate: ConfigState, outcome: Status)
    | Loading(candidate: ConfigState, outcome: Status, handle: nat)
    | Publishing(candidate: ConfigState, outcome: Status, handle: nat)
    | Reporting(outcome: Status)
    | Streaming(handle: nat, pieces: nat)
    | Leaving
    | Done
  {
    predicate Holds() { !Waiting? && !Done? }

    predicate Working() { Holds() && !Leaving? }

    function Rank(): nat {
      match this
      case Waiting(_) => 10
      case Deciding(_) => 9
      case Destroying(_) => 8
      case Clearing(_) => 7
      case Allocating(_, _) => 6
      case Loading(_, _, _) => 5
      case Publishing(_, _, _) => 4
      case Reporting(_) => 4
      case Streaming(_, _) => 3
      case Leaving => 2
      case Done => 1
    }
  }

  /** After parsing: a refused request leaves at once. */
  function Parsed(config: ConfigState, body: string, outcome: Status): Stage {
    match ParseRequest(config, body)
    case Accepted(candidate) => Destroying(Some((candidate, outcome)))
    case _ => Leaving
  }

  function Decide(s: Shared, handler: Handler): (Shared, Stage) {
    match handler
    case Load(body, outcome) => (s, Parsed(s.config, body, outcome))
    case Unload => (s, Destroying(None))
    case Reload(outcome) =>
      (s, if s.config.Selected() == "" then Leaving else Parsed(s.config, ReloadBody(s.config), outcome))
    case Reset => (if s.runtime.None? then s else s.(heap := s.heap.Use(s.runtime.value)), Leaving)
    case Generate(pieces) =>
      if s.runtime.None? then (s, Leaving)
      else (s.(heap := s.heap.Use(s.runtime.value)), Streaming(s.runtime.value, pieces))
    case Stop => (s, Destroying(None))
  }

  /** One action of the handler that holds the mutex. */
  function Act(s: Shared, stage: Stage): (Shared, Stage)
    requires stage.Working()
  {
    match stage
    case Deciding(handler) => Decide(s, handler)
    case Destroying(next) =>
      (s.(heap := if s.runtime.Some? then s.heap.Release(s.runtime.value) else s.heap), Clearing(next))
    case Clearing(next) =>
      (s.(runtime := None, lastStatus := Succeeded),
       match next case None => Leaving case Some((candidate, outcome)) => Allocating(candidate, outcome))
    case Allocating(candidate, outcome) =>
      (s.(heap := s.heap.Allocate()), Loading(candidate, outcome, s.heap.next))
    case Loading(candidate, outcome, h) =>
      if outcome.KeepsHandle() then (s, Publishing(candidate, outcome, h))
      else (s.(heap := s.heap.Release(h)), Reporting(outcome))
    case Publishing(candidate, outcome, h) =>
      (s.(config := candidate, runtime := Some(h), lastStatus := outcome), Leaving)
    case Reporting(outcome) => (s.(lastStatus := outcome), Leaving)
    case Streaming(h, pieces) =>
      if pieces == 0 then (s, Leaving) else (s.(heap := s.heap.Use(h)), Streaming(h, pieces - 1))
  }

  /** arrived and threads run in parallel; order lists the handlers as they got the mutex. */
  datatype World = World(shared: Shared, mutex: Option<nat>, arrived: seq<Handler>, threads: seq<Stage>,
                         order: seq<nat>, accepting: bool)

  /** A request arrives, or the scheduler picks a handler. */
  datatype Event = Arrive(handler: Handler) | Schedule(i: nat)

  function Start(config: ConfigState): World {
    World(Shared(config, None, Succeeded, EMPTY_HEAP), None, [], [], [], true)
  }

  /** A picked handler that waits for a mutex another one holds does nothing; so does a finished one. Once a stop
      has begun no further request arrives, though any number may still wait. */
  function Next(w: World, e: Event): World {
    match e
    case Arrive(handler) =>
      if !w.accepting && handler != Stop then w
      else w.(arrived := w.arrived + [handler], threads := w.threads + [Waiting(handler)],
              accepting := w.accepting && handler != Stop)
    case Schedule(i) =>
      if i >= |w.threads| then w
      else match w.threads[i]
           case Waiting(handler) =>
             if w.mutex.Some? then w
             else w.(mutex := Some(i), threads := w.threads[i := Deciding(handler)], order := w.order + [i])
           case Leaving => w.(mutex := None, threads := w.threads[i := Done])
           case Done => w
           case stage =>
             var (shared, next) := Act(w.shared, stage);
             w.(shared := shared, threads := w.threads[i := next])
  }

  function Play(w: World, events: seq<Event>): World {
    if events == [] then w else Next(Play(w, events[..|events| - 1]), events[|events| - 1])
  }

  // ---------- Every interleaving equals one request after the other ----------

  /** What is left to do for the handler in the mutex, done without interruption. */
  function Complete(s: Shared, stage: Stage): Shared
    decreases stage.Rank(), if stage.Streaming? then stage.pieces else 0
  {
    if stage.Working() then
      var (shared, next) := Act(s, stage);
      Complete(shared, next)
    else s
  }

  lemma {:induction false} StreamingCompletes(s: Shared, h: nat, pieces: nat)
    requires s.heap.Use(h) == s.heap
    ensures Complete(s, Streaming(h, pieces)) == s
  {
    if pieces > 0 {
      StreamingCompletes(s, h, pieces - 1);
    }
  }

  lemma CreateCompletes(s: Shared, candidate: ConfigState, outcome: Status)
    ensures Complete(s, Destroying(Some((candidate, outcome)))) == Created(Unloaded(s), candidate, outcome)
  {
    var cleared := Unloaded(s);
    var handle := cleared.heap.next;
    var during := cleared.(heap := cleared.heap.Allocate());
    assert outcome.KeepsHandle() ==>
        Complete(during, Publishing(candidate, outcome, handle)) == Created(cleared, candidate, outcome);
    assert !outcome.KeepsHandle() ==>
        Complete(during.(heap := during.heap.Release(handle)), Reporting(outcome))
        == Created(cleared, candidate, outcome);
    assert Complete(during, Loading(candidate, outcome, handle)) == Created(cleared, candidate, outcome);
    assert Complete(cleared, Allocating(candidate, outcome)) == Created(cleared, candidate, outcome);
  }

  /** A handler left alone from the moment it has the mutex does what the one-step specification says. */
  lemma DecidingCompletes(s: Shared, handler: Handler)
    ensures Complete(s, Deciding(handler)) == Served(s, handler)
  {
    hide ParseRequest, ReloadBody;
    match handler
    case Load(body, outcome) =>
      ParsedCompletes(s, body, outcome);
    case Reload(outcome) =>
      ParsedCompletes(s, ReloadBody(s.config), outcome);
    case Generate(pieces) =>
      if s.runtime.Some? {
        StreamingCompletes(s.(heap := s.heap.Use(s.runtime.value)), s.runtime.value, pieces);
      }
    case Unload => DestroyCompletes(s);
    case Stop => DestroyCompletes(s);
    case Reset =>
  }

  lemma DestroyCompletes(s: Shared)
    ensures Complete(s, Destroying(None)) == Unloaded(s)
  {
    var released := s.(heap := if s.runtime.Some? then s.heap.Release(s.runtime.value) else s.heap);
    assert Complete(released, Clearing(None)) == Unloaded(s);
  }

  lemma ParsedCompletes(s: Shared, body: string, outcome: Status)
    ensures Complete(s, Parsed(s.config, body, outcome)) == Loaded(s, body, outcome)
  {
    hide ParseRequest;
    var parsed := ParseRequest(s.config, body);
    if parsed.Accepted? {
      CreateCompletes(s, parsed.candidate, outcome);
    }
  }

  function HandlersOf(arrived: seq<Handler>, order: seq<nat>): (r: seq<Handler>)
    requires forall k :: 0 <= k < |order| ==> order[k] < |arrived|
    ensures |r| == |order| && forall k :: 0 <= k < |r| ==> r[k] == arrived[order[k]]
  {
    seq(|order|, k requires 0 <= k < |order| => arrived[order[k]])
  }

  /** The bookkeeping: who holds the mutex, and who has had it, each once. */
  ghost predicate WellFormed(w: World) {
    && |w.arrived| == |w.threads|
    && (w.mutex.Some? ==> w.mutex.value < |w.threads|)
    && (forall i :: 0 <= i < |w.threads| ==> (w.threads[i].Holds() <==> w.mutex == Some(i)))
    && (forall k :: 0 <= k < |w.order| ==> w.order[k] < |w.threads|)
    && (forall i :: 0 <= i < |w.threads| && w.threads[i].Waiting? ==>
          w.threads[i].handler == w.arrived[i] && i !in w.order)
    && (forall i :: 0 <= i < |w.threads| && !w.threads[i].Waiting? ==> i in w.order)
    && (forall j, k :: 0 <= j < k < |w.order| ==> w.order[j] != w.order[k])
  }

  lemma NextIsWellFormed(w: World, e: Event)
    requires WellFormed(w)
    ensures WellFormed(Next(w, e))
  {
    hide Act, HandlersOf;
    var n := Next(w, e);
    if e.Schedule? && e.i < |w.threads| && w.threads[e.i].Working() {
      ActHolds(w.shared, w.threads[e.i]);
    }
  }

  lemma ActHolds(s: Shared, stage: Stage)
    requires stage.Working()
    ensures Act(s, stage).1.Holds()
  {
    hide ParseRequest, ReloadBody;
  }

  /** The state the holder of the mutex will leave behind, or the state itself when no one holds it. */
  function Settled(w: World): Shared
    requires w.mutex.Some? ==> w.mutex.value < |w.threads|
  {
    if w.mutex.None? then w.shared else Complete(w.shared, w.threads[w.mutex.value])
  }

  ghost predicate Serial(initial: Shared, w: World) {
    WellFormed(w) && Settled(w) == ServeAll(initial, HandlersOf(w.arrived, w.order))
  }

  lemma NextIsSerial(initial: Shared, w: World, e: Event)
    requires Serial(initial, w)
    ensures Serial(initial, Next(w, e))
  {
    hide Served, Act, WellFormed;
    assert WellFormed(w) ==> |w.arrived| == |w.threads| by { WellFormedBasics(w); }
    NextIsWellFormed(w, e);
    var n := Next(w, e);
    WellFormedBasics(w);
    WellFormedBasics(n);
    match e
    case Arrive(handler) =>
      assert HandlersOf(n.arrived, n.order) == HandlersOf(w.arrived, w.order);
    case Schedule(i) =>
      if i < |w.threads| {
        if w.threads[i].Waiting? && w.mutex.None? {
          var before, after := HandlersOf(w.arrived, w.order), HandlersOf(n.arrived, n.order);
          assert after[..|after| - 1] == before;
          DecidingCompletes(w.shared, w.arrived[i]);
        } else {
          assert n.order == w.order && n.arrived == w.arrived;
        }
      }
  }

  lemma WellFormedBasics(w: World)
    requires WellFormed(w)
    ensures |w.arrived| == |w.threads| && (w.mutex.Some? ==> w.mutex.value < |w.threads|)
    ensures forall i :: 0 <= i < |w.threads| ==> (w.threads[i].Holds() <==> w.mutex == Some(i))
    ensures forall k :: 0 <= k < |w.order| ==> w.order[k] < |w.arrived|
    ensures forall i :: 0 <= i < |w.threads| && w.threads[i].Waiting? ==> w.threads[i].handler == w.arrived[i]
  {
  }

  /** Whatever the scheduling, what the mutex protects is at every moment what serving whole requests one by one,
      in the order they got the mutex and each at most once, gives: exactly that when the mutex is free, and up to
      the rest of the holder's work when it is not. */
  lemma {:induction false} EveryInterleavingIsSerial(config: ConfigState, events: seq<Event>)
    ensures Serial(Start(config).shared, Play(Start(config), events))
  {
    hide Next, Serial;
    if events == [] {
      assert Serial(Start(config).shared, Start(config)) by { StartIsSerial(config); }
    } else {
      EveryInterleavingIsSerial(config, events[..|events| - 1]);
      NextIsSerial(Start(config).shared, Play(Start(config), events[..|events| - 1]), events[|events| - 1]);
    }
  }

  lemma StartIsSerial(config: ConfigState)
    ensures Serial(Start(config).shared, Start(config))
  {
  }

  // ---------- Handles at every moment of every interleaving ----------

  /** What holds of the handles while a handler is at a stage with the mutex held. */
  ghost predicate SafeAt(s: Shared, stage: Stage) {
    && s.heap.Consistent()
    && match stage
       case Clearing(_) => s.heap.live == {}
       case Allocating(_, _) => s.runtime.None? && s.heap.live == {}
       case Reporting(_) => s.runtime.None? && s.heap.live == {}
       case Loading(_, _, h) => s.runtime.None? && s.heap.live == {h}
       case Publishing(_, outcome, h) => s.runtime.None? && s.heap.live == {h} && outcome.KeepsHandle()
       case Streaming(h, _) => s.runtime == Some(h) && s.heap.live == {h}
       case _ => s.Tidy()
  }

  lemma ActIsSafe(s: Shared, stage: Stage)
    requires stage.Working() && SafeAt(s, stage)
    ensures SafeAt(Act(s, stage).0, Act(s, stage).1)
  {
    hide ParseRequest, ReloadBody;
    match stage
    case Destroying(_) => UnloadedIsTidy(s);
    case Allocating(_, _) => AllocateIsConsistent(s.heap);
    case Loading(_, _, h) => ReleaseIsConsistent(s.heap, h);
    case _ =>
  }

  ghost predicate Safe(w: World) {
    && WellFormed(w)
    && SafeAt(w.shared, if w.mutex.None? then Done else w.threads[w.mutex.value])
  }

  lemma NextIsSafe(w: World, e: Event)
    requires Safe(w)
    ensures Safe(Next(w, e))
  {
    NextIsWellFormed(w, e);
    WellFormedBasics(w);
    hide Act, WellFormed;
    if e.Schedule? && e.i < |w.threads| && w.threads[e.i].Working() {
      ActIsSafe(w.shared, w.threads[e.i]);
      ActHolds(w.shared, w.threads[e.i]);
    }
  }

  lemma {:induction false} EveryMomentIsSafe(config: ConfigState, events: seq<Event>)
    ensures Safe(Play(Start(config), events))
  {
    hide Next;
    if events != [] {
      hide Safe;
      EveryMomentIsSafe(config, events[..|events| - 1]);
      NextIsSafe(Play(Start(config), events[..|events| - 1]), events[|events| - 1]);
    }
  }

  /** At every moment of every interleaving: no handle has been used or destroyed when not live, so none is destroyed
      twice; none has been created while another was live; and while a generation streams, the one live handle is
      the one it uses. */
  lemma HandlesAreSafe(config: ConfigState, events: seq<Event>)
    ensures var w := Play(Start(config), events);
            && w.shared.heap.Consistent()
            && |w.shared.heap.live| <= 1
            && forall i :: 0 <= i < |w.threads| && w.threads[i].Streaming? ==>
                        w.shared.heap.live == {w.threads[i].handle}
  {
    EveryMomentIsSafe(config, events);
    var w := Play(Start(config), events);
    hide Play;
    var stage := if w.mutex.None? then Done else w.threads[w.mutex.value];
    assert SafeAt(w.shared, stage);
    assert w.shared.heap.live == {} || exists h :: w.shared.heap.live == {h};
    forall i | 0 <= i < |w.threads| && w.threads[i].Streaming?
      ensures w.shared.heap.live == {w.threads[i].handle}
    {
      assert w.threads[i].Holds();
      assert w.mutex == Some(i);
    }
  }

  // ---------- The health report ----------

  /** What health_json answers, without waiting for anyone: whether a runtime is held. */
  function Health(w: World): bool { w.shared.runtime.Some? }

  /** The state the holder of the mutex found. */
  function Found(initial: Shared, w: World): Shared
    requires forall k :: 0 <= k < |w.order| ==> w.order[k] < |w.arrived|
  {
    if w.order == [] then initial else ServeAll(initial, HandlersOf(w.arrived, w.order[..|w.order| - 1]))
  }

  /** The stages at which a handler has not yet touched the runtime pointer it found. */
  predicate PointerAsFound(stage: Stage) {
    stage.Deciding? || stage.Destroying? || stage.Clearing? || stage.Streaming?
  }

  ghost predicate PointerKept(initial: Shared, w: World) {
    && WellFormed(w)
    && (w.mutex.Some? ==> w.order != [] && w.order[|w.order| - 1] == w.mutex.value)
    && (w.mutex.Some? && PointerAsFound(w.threads[w.mutex.value]) ==> w.shared.runtime == Found(initial, w).runtime)
  }

  lemma ActKeepsPointer(s: Shared, stage: Stage)
    requires stage.Working()
    ensures PointerAsFound(Act(s, stage).1) ==> PointerAsFound(stage) && Act(s, stage).0.runtime == s.runtime
  {
    hide ParseRequest, ReloadBody;
  }

  lemma NextKeepsPointer(initial: Shared, w: World, e: Event)
    requires Serial(initial, w) && PointerKept(initial, w)
    ensures PointerKept(initial, Next(w, e))
  {
    hide Act, Served, WellFormed, ServeAll;
    NextIsWellFormed(w, e);
    var n := Next(w, e);
    WellFormedBasics(w);
    WellFormedBasics(n);
    if w.order != [] {
      var early := w.order[..|w.order| - 1];
      assert HandlersOf(n.arrived, early) == HandlersOf(w.arrived, early);
    }
    if e.Schedule? && e.i < |w.threads| {
      if w.threads[e.i].Waiting? && w.mutex.None? {
        assert n.order[..|n.order| - 1] == w.order;
      } else if w.threads[e.i].Working() {
        ActKeepsPointer(w.shared, w.threads[e.i]);
      }
    }
  }

  lemma {:induction false} PointerIsKept(config: ConfigState, events: seq<Event>)
    ensures PointerKept(Start(config).shared, Play(Start(config), events))
  {
    if events != [] {
      hide Next, PointerKept, Serial;
      var before := events[..|events| - 1];
      PointerIsKept(config, before);
      EveryInterleavingIsSerial(config, before);
      NextKeepsPointer(Start(config).shared, Play(Start(config), before), events[|events| - 1]);
    }
  }

  /** The old runtime is gone, the new one not yet in place, and it will be. */
  predicate Replacing(stage: Stage) {
    (stage.Allocating? || stage.Loading? || stage.Publishing?) && stage.outcome.KeepsHandle()
  }

  lemma CompletedPointer(s: Shared, stage: Stage)
    ensures stage.Allocating? || stage.Loading? || (stage.Publishing? && stage.outcome.KeepsHandle()) ==>
              s.runtime.None? ==> (Complete(s, stage).runtime.Some? <==> stage.outcome.KeepsHandle())
    ensures stage.Leaving? || stage.Reporting? ==> Complete(s, stage).runtime == s.runtime
    decreases stage.Rank()
  {
    match stage
    case Allocating(candidate, outcome) =>
      var during := s.(heap := s.heap.Allocate());
      assert Complete(s, stage) == Complete(during, Loading(candidate, outcome, s.heap.next));
      CompletedPointer(during, Loading(candidate, outcome, s.heap.next));
    case Loading(candidate, outcome, h) =>
      var released := s.(heap := s.heap.Release(h));
      if outcome.KeepsHandle() {
        CompletedPointer(s, Publishing(candidate, outcome, h));
      } else {
        CompletedPointer(released, Reporting(outcome));
        assert Complete(s, stage) == Complete(released, Reporting(outcome));
      }
    case Publishing(candidate, outcome, h) =>
      var published := s.(config := candidate, runtime := Some(h), lastStatus := outcome);
      assert Complete(s, stage) == Complete(published, Leaving);
    case Reporting(outcome) =>
      assert Complete(s, stage) == Complete(s.(lastStatus := outcome), Leaving);
    case _ =>
  }

  /** When the mutex is free the report is that of the serial state. While a handler holds it, the report differs both
      from the state it found and from the one it will leave exactly while a runtime is being replaced by another; and
      it reports a runtime already destroyed exactly between the destruction and the clearing of the pointer. */
  lemma HealthExactly(config: ConfigState, events: seq<Event>)
    ensures var w := Play(Start(config), events);
            var initial := Start(config).shared;
            && WellFormed(w)
            && (w.mutex.None? ==> Health(w) == ServeAll(initial, ServedOrder(w)).runtime.Some?)
            && (w.mutex.Some? ==>
                  var stage, found, left := w.threads[w.mutex.value], Found(initial, w), Settled(w);
                  Health(w) != found.runtime.Some? && Health(w) != left.runtime.Some?
                  <==> Replacing(stage) && found.runtime.Some?)
            && (Health(w) && w.shared.runtime.value !in w.shared.heap.live
                <==> w.mutex.Some? && w.threads[w.mutex.value].Clearing? && w.shared.runtime.Some?)
  {
    hide Play, ServeAll, Complete;
    PointerIsKept(config, events);
    EveryMomentIsSafe(config, events);
    EveryInterleavingIsSerial(config, events);
    var w := Play(Start(config), events);
    WellFormedBasics(w);
    hide WellFormed;
    if w.mutex.Some? {
      CompletedPointer(w.shared, w.threads[w.mutex.value]);
    }
  }

  // ---------- When every handler is done ----------

  ghost predicate AllDone(w: World) { forall i :: 0 <= i < |w.threads| ==> w.threads[i].Done? }

  /** The handlers in the order they were served. */
  function ServedOrder(w: World): (r: seq<Handler>)
    requires WellFormed(w)
    ensures |r| == |w.order|
  {
    HandlersOf(w.arrived, w.order)
  }

  lemma DoneIsSettled(config: ConfigState, events: seq<Event>)
    requires AllDone(Play(Start(config), events))
    ensures var w := Play(Start(config), events);
            && WellFormed(w) && w.shared.Tidy() && w.shared == ServeAll(Start(config).shared, ServedOrder(w))
  {
    hide Play, ServeAll;
    var w := Play(Start(config), events);
    EveryMomentIsSafe(config, events);
    EveryInterleavingIsSerial(config, events);
    WellFormedBasics(w);
    assert w.mutex.None?;
  }

  /** When every handler is done, a handle is live if and only if a load or reload that was served left it behind. */
  lemma LiveWhenDone(config: ConfigState, events: seq<Event>)
    requires AllDone(Play(Start(config), events))
    ensures var w := Play(Start(config), events);
            && WellFormed(w)
            && (w.shared.heap.live != {} <==> LeftBehind(Start(config).shared, ServedOrder(w)))
            && (w.shared.heap.live == {} ==> forall h: nat :: h < w.shared.heap.next <==> h in w.shared.heap.destroyed)
  {
    hide Play, ServeAll, LeftBehind, ServedOrder;
    DoneIsSettled(config, events);
    var w := Play(Start(config), events);
    RuntimeIsLeftBehind(Start(config).shared, ServedOrder(w));
    if w.shared.heap.live == {} {
      assert w.shared.heap.live + w.shared.heap.destroyed == w.shared.heap.destroyed;
    }
  }

  /** When every handler is done and the k-th one served was a stop, a handle is live if and only if one served after
      it left it behind. */
  lemma LiveAfterStop(config: ConfigState, events: seq<Event>, k: nat)
    requires var w := Play(Start(config), events);
             AllDone(w) && WellFormed(w) && k < |w.order| && ServedOrder(w)[k] == Stop
    ensures var w := Play(Start(config), events);
            var served := ServedOrder(w);
            && (w.shared.heap.live != {} <==>
                  LeftBehind(ServeAll(Start(config).shared, served[..k + 1]), served[k + 1..]))
  {
    hide Play, ServeAll, LeftBehind, ServedOrder;
    DoneIsSettled(config, events);
    RuntimeSinceClear(Start(config).shared, ServedOrder(Play(Start(config), events)), k);
  }

  /** So when nothing that asks for a runtime was served after a stop, every handle ever created has been destroyed. */
  lemma NothingLivesAfterStop(config: ConfigState, events: seq<Event>, k: nat)
    requires var w := Play(Start(config), events);
             && AllDone(w) && WellFormed(w) && k < |w.order| && ServedOrder(w)[k] == Stop
             && forall j :: k < j < |w.order| ==> !ServedOrder(w)[j].Load? && !ServedOrder(w)[j].Reload?
    ensures var heap := Play(Start(config), events).shared.heap;
            heap.live == {} && forall h: nat :: h < heap.next <==> h in heap.destroyed
  {
    hide Play, ServeAll, ServedOrder;
    LiveAfterStop(config, events, k);
    LiveWhenDone(config, events);
    var served := ServedOrder(Play(Start(config), events));
    var late := served[k + 1..];
    forall j | 0 <= j < |late| ensures !late[j].Load? && !late[j].Reload? {
      assert late[j] == served[k + 1 + j];
    }
  }

  // ---------- Reloading, from any state a run can reach ----------

  lemma IdleIsServed(config: ConfigState, events: seq<Event>)
    requires Play(Start(config), events).mutex.None?
    ensures var w := Play(Start(config), events);
            WellFormed(w) && w.shared == ServeAll(Start(config).shared, ServedOrder(w))
  {
    hide Play, ServeAll;
    EveryInterleavingIsSerial(config, events);
  }

  /** In every state a run can reach with the mutex free and a model selected, a reload replaces the runtime by a new
      one for the same configuration if that is reloadable, and changes nothing if it is not. */
  lemma ReachableReloadRestarts(config: ConfigState, events: seq<Event>, outcome: Status)
    requires Selectable(config) && Play(Start(config), events).mutex.None?
    requires Play(Start(config), events).shared.config.Selected() != ""
    ensures var s := Play(Start(config), events).shared;
            && s.config.OneSelector()
            && Served(s, Reload(outcome)) == if Reloadable(s.config) then Created(Unloaded(s), s.config, outcome) else s
  {
    hide Play, Served, Reloadable, ServeAll, ServedOrder;
    IdleIsServed(config, events);
    var w := Play(Start(config), events);
    ServeAllIsSelectable(Start(config).shared, ServedOrder(w));
    ReloadRestarts(w.shared, outcome);
  }

  // ---------- Every handler can finish ----------

  lemma {:induction false} PlayAppend(w: World, a: seq<Event>, b: seq<Event>)
    ensures Play(w, a + b) == Play(Play(w, a), b)
  {
    hide Next;
    if b == [] {
      assert a + b == a;
    } else {
      var n := |b| - 1;
      PlayAppend(w, a, b[..n]);
      assert (a + b)[..|a + b| - 1] == a + b[..n];
    }
  }

  lemma PlayFirst(w: World, e: Event, rest: seq<Event>)
    ensures Play(w, [e] + rest) == Play(Next(w, e), rest)
  {
    hide Next;
    PlayAppend(w, [e], rest);
    assert [e][..0] == [];
    assert Play(w, [e]) == Next(Play(w, []), e);
  }

  /** The holder of the mutex, scheduled often enough, finishes its work and frees the mutex. */
  lemma {:induction false} HolderFinishes(w: World, i: nat) returns (events: seq<Event>)
    requires WellFormed(w) && w.mutex == Some(i)
    ensures i < |w.threads| && Play(w, events)
         == w.(shared := Complete(w.shared, w.threads[i]), mutex := None, threads := w.threads[i := Done])
    decreases w.threads[i].Rank(), if w.threads[i].Streaming? then w.threads[i].pieces else 0
  {
    var stage, n := w.threads[i], Next(w, Schedule(i));
    assert stage.Holds();
    NextIsWellFormed(w, Schedule(i));
    if stage.Leaving? {
      PlayFirst(w, Schedule(i), []);
      events := [Schedule(i)] + [];
    } else {
      ActHolds(w.shared, stage);
      ActDecreases(w.shared, stage);
      hide Act, WellFormed, Play;
      var rest := HolderFinishes(n, i);
      PlayFirst(w, Schedule(i), rest);
      events := [Schedule(i)] + rest;
    }
  }

  lemma ActDecreases(s: Shared, stage: Stage)
    requires stage.Working()
    ensures var next := Act(s, stage).1;
            || next.Rank() < stage.Rank()
            || (next.Streaming? && stage.Streaming? && next.pieces < stage.pieces)
  {
    hide ParseRequest, ReloadBody;
  }

  /** A waiting handler can be served whole as soon as the mutex is free. */
  lemma WaiterFinishes(w: World, i: nat) returns (events: seq<Event>)
    requires WellFormed(w) && w.mutex.None? && i < |w.threads| && w.threads[i].Waiting?
    ensures Play(w, events) == w.(shared := Served(w.shared, w.arrived[i]), threads := w.threads[i := Done],
                                  order := w.order + [i])
    ensures WellFormed(Play(w, events))
  {
    var n := Next(w, Schedule(i));
    NextIsWellFormed(w, Schedule(i));
    DecidingCompletes(w.shared, w.arrived[i]);
    hide Served, Complete, Play;
    var rest := HolderFinishes(n, i);
    PlayFirst(w, Schedule(i), rest);
    events := [Schedule(i)] + rest;
    PlayIsWellFormed(w, events);
  }

  lemma {:induction false} PlayIsWellFormed(w: World, events: seq<Event>)
    requires WellFormed(w)
    ensures WellFormed(Play(w, events))
  {
    hide Next, WellFormed;
    if events != [] {
      PlayIsWellFormed(w, events[..|events| - 1]);
      NextIsWellFormed(Play(w, events[..|events| - 1]), events[|events| - 1]);
    }
  }

  /** Why a waiting handler matters: a load that gets the mutex after a stop leaves its handle live, although
      every handler has finished and none can arrive. */
  lemma LoadBehindStopLeaks(config: ConfigState, body: string) returns (events: seq<Event>)
    requires ParseRequest(config, body).Accepted?
    ensures var w := Play(Start(config), events);
            && w.arrived == [Load(body, Succeeded), Stop] && w.threads == [Done, Done] && !w.accepting
            && w.shared.heap.live == {0}
  {
    hide ParseRequest;
    var first, second := Arrive(Load(body, Succeeded)), Arrive(Stop);
    var arrive := [first] + ([second] + []);
    PlayFirst(Start(config), first, [second] + []);
    PlayFirst(Next(Start(config), first), second, []);
    var w := Play(Start(config), arrive);
    assert w.arrived == [Load(body, Succeeded), Stop];
    assert WellFormed(w) by { PlayIsWellFormed(Start(config), arrive); }
    var stopping := WaiterFinishes(w, 1);
    var stopped := Play(w, stopping);
    var loading := WaiterFinishes(stopped, 0);
    PlayAppend(w, stopping, loading);
    PlayAppend(Start(config), arrive, stopping + loading);
    events := arrive + (stopping + loading);
  }

  lemma AcceptanceIsTheBodys(a: ConfigState, b: ConfigState, body: string)
    ensures ParseRequest(a, body).Accepted? == ParseRequest(b, body).Accepted?
  {
    hide Selector, Json.IntValue;
  }

  /** A load that the parser accepts can be stopped between dropping the old runtime and creating the new one. */
  lemma StopInTheMiddle(w: World, i: nat, body: string) returns (events: seq<Event>)
    requires WellFormed(w) && w.mutex.None? && i < |w.threads| && w.threads[i] == Waiting(Load(body, Succeeded))
    requires ParseRequest(w.shared.config, body).Accepted?
    ensures var after := Play(w, events);
            && WellFormed(after) && after.mutex == Some(i) && after.arrived == w.arrived && after.order == w.order + [i]
            && i < |after.threads| && after.threads[i].Allocating? && after.threads[i].outcome == Succeeded
  {
    hide ParseRequest;
    var e := Schedule(i);
    var w1 := Next(w, e);
    var w2 := Next(w1, e);
    var w3 := Next(w2, e);
    var w4 := Next(w3, e);
    assert w2.threads[i] == Destroying(Some((ParseRequest(w.shared.config, body).candidate, Succeeded)));
    assert w4.threads[i].Allocating? && w4.threads[i].outcome == Succeeded && w4.mutex == Some(i);
    assert w4.arrived == w.arrived && w4.order == w.order + [i];
    hide Next, Play;
    var none: seq<Event> := [];
    PlayFirst(w3, e, none);
    PlayFirst(w2, e, [e] + none);
    PlayFirst(w1, e, [e] + ([e] + none));
    PlayFirst(w, e, [e] + ([e] + ([e] + none)));
    assert Play(w4, none) == w4 by { PlayNothing(w4); }
    events := [e] + ([e] + ([e] + ([e] + none)));
    PlayIsWellFormed(w, events);
  }

  lemma PlayNothing(w: World)
    ensures Play(w, []) == w
  {
  }

  /** One load served whole, and a second one of the same model waiting. */
  lemma SecondLoadWaits(config: ConfigState, body: string) returns (events: seq<Event>)
    ensures var w, load := Play(Start(config), events), Load(body, Succeeded);
            && WellFormed(w) && w.mutex.None? && w.order == [0]
            && w.arrived == [load, load] && w.threads == [Done, Waiting(load)]
  {
    hide ParseRequest, Served;
    var load := Load(body, Succeeded);
    var none: seq<Event> := [];
    var w0 := Next(Start(config), Arrive(load));
    assert w0.arrived == [load] && w0.threads == [Waiting(load)] && w0.order == [] && w0.accepting && w0.mutex.None?;
    NextIsWellFormed(Start(config), Arrive(load));
    var first := WaiterFinishes(w0, 0);
    var w1 := Play(w0, first);
    assert w1.arrived == [load] && w1.threads == [Done] && w1.order == [0] && w1.accepting && w1.mutex.None?;
    var w2 := Next(w1, Arrive(load));
    assert w2.arrived == [load, load] && w2.threads == [Done, Waiting(load)];
    NextIsWellFormed(w1, Arrive(load));
    hide Next, Play, WellFormed;
    PlayFirst(w1, Arrive(load), none);
    PlayNothing(w2);
    PlayAppend(w0, first, [Arrive(load)] + none);
    PlayFirst(Start(config), Arrive(load), first + ([Arrive(load)] + none));
    events := [Arrive(load)] + (first + ([Arrive(load)] + none));
  }

  /** The health report does disagree with the serial order: a second load of the same model, stopped in the middle,
      while the state before it and the state after it both hold a runtime. */
  lemma HealthGap(config: ConfigState, body: string) returns (events: seq<Event>)
    requires ParseRequest(config, body).Accepted?
    ensures var w := Play(Start(config), events);
            && WellFormed(w) && w.mutex == Some(1)
            && !Health(w) && Found(Start(config).shared, w).runtime.Some? && Settled(w).runtime.Some?
  {
    hide ParseRequest, Play, WellFormed, Settled, Found;
    var waiting := SecondLoadWaits(config, body);
    var w := Play(Start(config), waiting);
    AcceptanceIsTheBodys(config, w.shared.config, body);
    var rest := StopInTheMiddle(w, 1, body);
    PlayAppend(Start(config), waiting, rest);
    events := waiting + rest;
    FoundAfterOne(config, Play(Start(config), events), Load(body, Succeeded));
    HealthExactly(config, events);
  }

  lemma FoundAfterOne(config: ConfigState, w: World, load: Handler)
    requires WellFormed(w) && w.order == [0, 1] && w.arrived == [load, load]
    requires load.Load? && load.outcome == Succeeded && ParseRequest(config, load.body).Accepted?
    ensures Found(Start(config).shared, w).runtime.Some?
  {
    hide ParseRequest;
    var initial := Start(config).shared;
    assert w.order[..1] == [0] && HandlersOf(w.arrived, [0]) == [load] && [load][..0] == [];
    assert ServeAll(initial, [load]) == Served(ServeAll(initial, []), load);
  }
}
