/** The dashboard's runtime controller: one handle, replaced by request handlers under one mutex. */
module Dashboard {
  import opened Wrappers
  import opened Json
  import opened Reload

  /** What syj_edgemind_create reports. */
  datatype Status = Succeeded | MemoryBudgetExceeded | QuotaExceeded | ModelVerificationFailed | OtherFailure
  {
    /** The statuses with which the caller gets a handle, to inspect or to use. */
    predicate KeepsHandle() { this != OtherFailure }
  }

  /** The C API's handles. A use or a destruction of a handle that is not live is a fault; crowded says that a
      handle has been created while another was live. */
  datatype Heap = Heap(live: set<nat>, destroyed: set<nat>, next: nat, faulted: bool, crowded: bool)
  {
    function Allocate(): Heap {
      this.(live := live + {next}, next := next + 1, crowded := crowded || live != {})
    }

    function Release(h: nat): Heap {
      if h in live then this.(live := live - {h}, destroyed := destroyed + {h}) else this.(faulted := true)
    }

    function Use(h: nat): Heap { if h in live then this else this.(faulted := true) }

    /** Nothing has gone wrong, and every handle ever created is either live or destroyed, never both. */
    ghost predicate Consistent() {
      !faulted && !crowded && live !! destroyed && forall h: nat :: h < next <==> h in live + destroyed
    }
  }

  const EMPTY_HEAP := Heap({}, {}, 0, false, false)

  /** What the mutex protects, with the handles behind it. */
  datatype Shared = Shared(config: ConfigState, runtime: Option<nat>, lastStatus: Status, heap: Heap)
  {
    ghost predicate Tidy() {
      heap.Consistent() && heap.live == match runtime case None => {} case Some(h) => {h}
    }
  }

  /** A request that takes the mutex. outcome stands for what creating a runtime would report, pieces for the
      callbacks of a generation. */
  datatype Handler =
    Load(body: string, outcome: Status) | Unload | Reload(outcome: Status) | Reset | Generate(pieces: nat) | Stop

  // ---------- What each request does, as one step ----------

  function Unloaded(s: Shared): Shared {
    s.(runtime := None, lastStatus := Succeeded,
       heap := if s.runtime.Some? then s.heap.Release(s.runtime.value) else s.heap)
  }

  /** Creating a runtime for a candidate configuration: the configuration is adopted only with a handle. */
  function Created(s: Shared, candidate: ConfigState, outcome: Status): Shared {
    var handle := s.heap.next;
    if outcome.KeepsHandle() then Shared(candidate, Some(handle), outcome, s.heap.Allocate())
    else s.(lastStatus := outcome, heap := s.heap.Allocate().Release(handle))
  }

  function Loaded(s: Shared, body: string, outcome: Status): Shared {
    match ParseRequest(s.config, body)
    case Accepted(candidate) => Created(Unloaded(s), candidate, outcome)
    case _ => s
  }

  function Served(s: Shared, handler: Handler): Shared {
    match handler
    case Load(body, outcome) => Loaded(s, body, outcome)
    case Unload => Unloaded(s)
    case Reload(outcome) => if s.config.Selected() == "" then s else Loaded(s, ReloadBody(s.config), outcome)
    case Reset => if s.runtime.None? then s else s.(heap := s.heap.Use(s.runtime.value))
    case Generate(_) => if s.runtime.None? then s else s.(heap := s.heap.Use(s.runtime.value))
    case Stop => Unloaded(s)
  }

  lemma AllocateIsConsistent(heap: Heap)
    requires heap.Consistent() && heap.live == {}
    ensures heap.Allocate().Consistent() && heap.Allocate().live == {heap.next}
  {
    var after := heap.Allocate();
    assert heap.next !in heap.live + heap.destroyed;
    forall h: nat ensures h < after.next <==> h in after.live + after.destroyed {
      assert h < heap.next <==> h in heap.live + heap.destroyed;
    }
  }

  lemma ReleaseIsConsistent(heap: Heap, h: nat)
    requires heap.Consistent() && h in heap.live
    ensures heap.Release(h).Consistent()
    ensures heap.live == {h} ==> heap.Release(h).live == {}
  {
    var after := heap.Release(h);
    assert after.live + after.destroyed == heap.live + heap.destroyed;
  }

  lemma UnloadedIsTidy(s: Shared)
    requires s.Tidy()
    ensures Unloaded(s).Tidy()
  {
    if s.runtime.Some? {
      ReleaseIsConsistent(s.heap, s.runtime.value);
    }
  }

  lemma CreatedIsTidy(s: Shared, candidate: ConfigState, outcome: Status)
    requires s.Tidy() && s.runtime.None?
    ensures Created(s, candidate, outcome).Tidy()
  {
    AllocateIsConsistent(s.heap);
    ReleaseIsConsistent(s.heap.Allocate(), s.heap.next);
  }

  /** Between requests: no fault so far, every handle ever created live or destroyed, and live exactly the one held. */
  lemma ServedIsTidy(s: Shared, handler: Handler)
    requires s.Tidy()
    ensures Served(s, handler).Tidy()
  {
    hide ParseRequest, ReloadBody;
    UnloadedIsTidy(s);
    forall candidate, outcome ensures Created(Unloaded(s), candidate, outcome).Tidy() {
      CreatedIsTidy(Unloaded(s), candidate, outcome);
    }
    hide Created, Unloaded;
  }

  /** A configuration in force was accepted, or is the initial one without a selection. */
  predicate Selectable(config: ConfigState) { config.Selected() != "" ==> config.OneSelector() }

  lemma ServedIsSelectable(s: Shared, handler: Handler)
    requires Selectable(s.config)
    ensures Selectable(Served(s, handler).config)
  {
    hide ParseRequest, ReloadBody;
  }

  /** A reload replaces the runtime by a new one for the very configuration in force, or changes nothing: it is
      refused, with the old runtime still running, exactly when the selection is not reloadable. */
  lemma ReloadRestarts(s: Shared, outcome: Status)
    requires s.config.OneSelector()
    ensures Served(s, Reload(outcome)) == if Reloadable(s.config) then Created(Unloaded(s), s.config, outcome) else s
  {
    hide ParseRequest, ReloadBody, Reloadable;
    ReloadIsIdentity(s.config);
  }

  // ---------- Many requests, one after the other ----------

  function ServeAll(s: Shared, handlers: seq<Handler>): Shared {
    if handlers == [] then s else Served(ServeAll(s, handlers[..|handlers| - 1]), handlers[|handlers| - 1])
  }

  /** What a request asks to be created: None unless it is a load or reload that passes the parser. */
  function Requested(s: Shared, handler: Handler): Option<Status> {
    match handler
    case Load(body, outcome) => if ParseRequest(s.config, body).Accepted? then Some(outcome) else None
    case Reload(outcome) =>
      if s.config.Selected() != "" && ParseRequest(s.config, ReloadBody(s.config)).Accepted? then Some(outcome)
      else None
    case _ => None
  }

  /** The request leaves a runtime: an accepted load or reload that keeps its handle. */
  predicate Leaves(s: Shared, handler: Handler) {
    Requested(s, handler).Some? && Requested(s, handler).value.KeepsHandle()
  }

  /** The request leaves none: an unload, a stop, or an accepted load or reload that does not keep its handle. */
  predicate Clears(s: Shared, handler: Handler) {
    || handler == Unload || handler == Stop
    || (Requested(s, handler).Some? && !Requested(s, handler).value.KeepsHandle())
  }

  lemma ServedRuntime(s: Shared, handler: Handler)
    ensures Served(s, handler).runtime.Some?
         == if Leaves(s, handler) then true else if Clears(s, handler) then false else s.runtime.Some?
    ensures !(Leaves(s, handler) && Clears(s, handler))
  {
    hide ParseRequest, ReloadBody;
  }

  /** The configuration a request asks for. */
  function Candidate(s: Shared, handler: Handler): ConfigState
    requires Requested(s, handler).Some?
  {
    ParseRequest(s.config, if handler.Load? then handler.body else ReloadBody(s.config)).candidate
  }

  /** What one request changes: only a request that leaves a runtime changes the configuration, to the one it asked for,
      and the runtime it leaves is a new handle. */
  lemma ServedExactly(s: Shared, handler: Handler)
    ensures var after, asked := Served(s, handler), Requested(s, handler);
            && after.config == (if Leaves(s, handler) then Candidate(s, handler) else s.config)
            && after.runtime == (if Leaves(s, handler) then Some(s.heap.next)
                                 else if Clears(s, handler) then None else s.runtime)
            && after.lastStatus == (if asked.Some? then asked.value
                                    else if handler == Unload || handler == Stop then Succeeded else s.lastStatus)
            && after.heap.next == s.heap.next + (if asked.Some? then 1 else 0)
            && (Leaves(s, handler) <==>
                  asked.Some?
                  && asked.value in {Succeeded, MemoryBudgetExceeded, QuotaExceeded, ModelVerificationFailed})
  {
    hide ParseRequest, ReloadBody;
  }

  /** The latest request that leaves a runtime is the k-th. */
  ghost predicate LeftLastAt(s: Shared, handlers: seq<Handler>, k: nat) {
    && k < |handlers| && Leaves(ServeAll(s, handlers[..k]), handlers[k])
    && forall j :: k < j < |handlers| ==> !Leaves(ServeAll(s, handlers[..j]), handlers[j])
  }

  lemma LeftLastBefore(s: Shared, handlers: seq<Handler>, k: nat)
    requires LeftLastAt(s, handlers, k) && k < |handlers| - 1
    ensures var n := |handlers| - 1;
            LeftLastAt(s, handlers[..n], k) && !Leaves(ServeAll(s, handlers[..n]), handlers[n])
  {
    hide Leaves, ServeAll;
    var init := handlers[..|handlers| - 1];
    assert forall j :: 0 <= j <= |init| ==> init[..j] == handlers[..j];
  }

  /** After any requests the configuration in force is the one asked for by the latest request that left a runtime. */
  lemma {:induction false} ConfigInForce(s: Shared, handlers: seq<Handler>, k: nat)
    requires LeftLastAt(s, handlers, k)
    ensures ServeAll(s, handlers).config == Candidate(ServeAll(s, handlers[..k]), handlers[k])
  {
    hide Leaves, Requested, Served, Candidate, Clears;
    var n := |handlers| - 1;
    ServedExactly(ServeAll(s, handlers[..n]), handlers[n]);
    if k < n {
      LeftLastBefore(s, handlers, k);
      ConfigInForce(s, handlers[..n], k);
      assert handlers[..n][..k] == handlers[..k];
    }
  }

  /** And the initial one when no request left a runtime. */
  lemma {:induction false} InitialConfigInForce(s: Shared, handlers: seq<Handler>)
    requires forall j :: 0 <= j < |handlers| ==> !Leaves(ServeAll(s, handlers[..j]), handlers[j])
    ensures ServeAll(s, handlers).config == s.config
  {
    hide Leaves, Requested, Served;
    if handlers != [] {
      var n := |handlers| - 1;
      var init := handlers[..n];
      forall j | 0 <= j < n ensures !Leaves(ServeAll(s, init[..j]), init[j]) {
        assert init[..j] == handlers[..j];
      }
      InitialConfigInForce(s, init);
      ServedExactly(ServeAll(s, init), handlers[n]);
    }
  }

  /** Some request leaves a runtime, and none after it clears it. */
  ghost predicate LeftBehind(s: Shared, handlers: seq<Handler>) {
    exists k :: 0 <= k < |handlers| && Leaves(ServeAll(s, handlers[..k]), handlers[k])
                && forall j :: k < j < |handlers| ==> !Clears(ServeAll(s, handlers[..j]), handlers[j])
  }

  lemma LeftBehindStep(s: Shared, handlers: seq<Handler>)
    requires handlers != []
    ensures var n := |handlers| - 1;
            var before := ServeAll(s, handlers[..n]);
            && LeftBehind(s, handlers)
               == (Leaves(before, handlers[n]) || (LeftBehind(s, handlers[..n]) && !Clears(before, handlers[n])))
  {
    hide Leaves, Clears, ServeAll;
    var n := |handlers| - 1;
    var init := handlers[..n];
    assert forall k :: 0 <= k <= n ==> init[..k] == handlers[..k];
    if LeftBehind(s, handlers) {
      var k :| 0 <= k < |handlers| && Leaves(ServeAll(s, handlers[..k]), handlers[k])
               && forall j :: k < j < |handlers| ==> !Clears(ServeAll(s, handlers[..j]), handlers[j]);
      assert k < n ==> Leaves(ServeAll(s, init[..k]), init[k]);
    }
    if Leaves(ServeAll(s, init), handlers[n]) {
      assert Leaves(ServeAll(s, handlers[..n]), handlers[n]);
    } else if LeftBehind(s, init) && !Clears(ServeAll(s, init), handlers[n]) {
      var k :| 0 <= k < n && Leaves(ServeAll(s, init[..k]), init[k])
               && forall j :: k < j < n ==> !Clears(ServeAll(s, init[..j]), init[j]);
      assert Leaves(ServeAll(s, handlers[..k]), handlers[k]);
    }
  }

  /** Starting without a runtime, one is held at the end if and only if it was left behind. */
  lemma {:induction false} RuntimeIsLeftBehind(s: Shared, handlers: seq<Handler>)
    requires s.runtime.None?
    ensures ServeAll(s, handlers).runtime.Some? <==> LeftBehind(s, handlers)
  {
    if handlers != [] {
      var n := |handlers| - 1;
      RuntimeIsLeftBehind(s, handlers[..n]);
      LeftBehindStep(s, handlers);
      ServedRuntime(ServeAll(s, handlers[..n]), handlers[n]);
      hide Leaves, Clears, LeftBehind, Served;
    }
  }

  /** After a request that clears, one is held if and only if a later one left it behind. */
  lemma RuntimeSinceClear(s: Shared, handlers: seq<Handler>, k: nat)
    requires k < |handlers| && Clears(ServeAll(s, handlers[..k]), handlers[k])
    ensures ServeAll(s, handlers).runtime.Some?
       <==> LeftBehind(ServeAll(s, handlers[..k + 1]), handlers[k + 1..])
  {
    hide Leaves, Clears, LeftBehind, Served, Requested;
    var cleared := handlers[..k + 1];
    assert cleared[..k] == handlers[..k];
    ServedRuntime(ServeAll(s, cleared[..k]), cleared[k]);
    RuntimeIsLeftBehind(ServeAll(s, cleared), handlers[k + 1..]);
    ServeAllAppend(s, cleared, handlers[k + 1..]);
    assert cleared + handlers[k + 1..] == handlers;
  }

  lemma {:induction false} ServeAllAppend(s: Shared, a: seq<Handler>, b: seq<Handler>)
    ensures ServeAll(s, a + b) == ServeAll(ServeAll(s, a), b)
  {
    hide Served;
    if b == [] {
      assert a + b == a;
    } else {
      ServeAllAppend(s, a, b[..|b| - 1]);
      assert (a + b)[..|a + b| - 1] == a + b[..|b| - 1];
    }
  }

  lemma {:induction false} ServeAllIsSelectable(s: Shared, handlers: seq<Handler>)
    requires Selectable(s.config)
    ensures Selectable(ServeAll(s, handlers).config)
  {
    hide Served, Selectable;
    if handlers != [] {
      ServeAllIsSelectable(s, handlers[..|handlers| - 1]);
      ServedIsSelectable(ServeAll(s, handlers[..|handlers| - 1]), handlers[|handlers| - 1]);
    }
  }

  // ---------- The controller ----------

  class Handles {
    var live: set<nat>
    var destroyed: set<nat>
    var next: nat
    var faulted: bool
    var crowded: bool

    function View(): Heap
      reads this
    {
      Heap(live, destroyed, next, faulted, crowded)
    }

    constructor ()
      ensures View() == EMPTY_HEAP
    {
      live, destroyed, next, faulted, crowded := {}, {}, 0, false, false;
    }

    /** syj_edgemind_create: the handle exists while the runtime loads; three failures keep it. */
    method Create(outcome: Status) returns (handle: Option<nat>)
      modifies this
      ensures handle == if outcome.KeepsHandle() then Some(old(next)) else None
      ensures View() == if outcome.KeepsHandle() then old(View()).Allocate()
                        else old(View()).Allocate().Release(old(next))
    {
      var h := next;
      crowded := crowded || live != {};
      live, next := live + {h}, next + 1;
      if outcome == Succeeded {
        return Some(h);
      }
      if outcome == MemoryBudgetExceeded || outcome == QuotaExceeded || outcome == ModelVerificationFailed {
        return Some(h);
      }
      Destroy(h);
      handle := None;
    }

    method Destroy(h: nat)
      modifies this
      ensures View() == old(View()).Release(h)
    {
      if h in live {
        live, destroyed := live - {h}, destroyed + {h};
      } else {
        faulted := true;
      }
    }

    method Use(h: nat)
      modifies this
      ensures View() == old(View()).Use(h)
    {
      if h !in live {
        faulted := true;
      }
    }
  }

  class DashboardServer {
    var config: ConfigState
    var runtime: Option<nat>
    var lastStatus: Status
    const api: Handles

    function View(): Shared
      reads this, api
    {
      Shared(config, runtime, lastStatus, api.View())
    }

    constructor (initial: ConfigState)
      ensures View() == Shared(initial, None, Succeeded, EMPTY_HEAP) && fresh(api)
    {
      config, runtime, lastStatus := initial, None, Succeeded;
      api := new Handles();
    }

    /** unload_current */
    method UnloadCurrent()
      modifies this, api
      ensures View() == Unloaded(old(View()))
    {
      if runtime.Some? {
        api.Destroy(runtime.value);
        runtime := None;
      }
      lastStatus := Succeeded;
    }

    /** load_from_request: the old runtime goes before the new one comes. */
    method LoadFromRequest(body: string, outcome: Status) returns (ok: bool)
      modifies this, api
      ensures View() == Loaded(old(View()), body, outcome)
      ensures ok <==> ParseRequest(old(config), body).Accepted? && outcome == Succeeded
    {
      hide StringValue, IntValue, MODEL_ID, MODEL_PATH, CONTEXT_SIZE, THREADS;
      if |body| > MAX_REQUEST_BODY {
        return false;
      }
      var haveId, modelId := ParseJsonString(body, MODEL_ID);
      var havePath, modelPath := ParseJsonString(body, MODEL_PATH);
      haveId := haveId && modelId != "";
      havePath := havePath && modelPath != "";
      if haveId == havePath {
        return false;
      }
      var candidate := config;
      candidate := candidate.(modelId := if haveId then modelId else "");
      candidate := candidate.(modelPath := if havePath then modelPath else "");
      var contextSize := IntValue(body, CONTEXT_SIZE);
      if contextSize.Some? {
        candidate := candidate.(contextSize := contextSize.value);
      }
      var threads := IntValue(body, THREADS);
      if threads.Some? {
        candidate := candidate.(threads := threads.value);
      }
      assert ParseRequest(config, body) == Accepted(candidate);
      hide ParseRequest;
      UnloadCurrent();
      var created := api.Create(outcome);
      if created.None? {
        lastStatus := outcome;
        return false;
      }
      runtime := created;
      config := candidate;
      lastStatus := outcome;
      ok := outcome == Succeeded;
    }

    /** reload_current */
    method ReloadCurrent(outcome: Status) returns (ok: bool)
      modifies this, api
      ensures View() == Served(old(View()), Reload(outcome))
    {
      hide ParseRequest, Escaped;
      if config.modelId == "" && config.modelPath == "" {
        return false;
      }
      var inside := JsonEscape(if config.modelId == "" then config.modelPath else config.modelId);
      var body := SelectorBody(if config.modelId == "" then MODEL_PATH else MODEL_ID, inside);
      ok := LoadFromRequest(body, outcome);
    }

    /** The reset request's handler. */
    method ResetContext() returns (ok: bool)
      modifies this, api
      ensures View() == Served(old(View()), Reset) && ok == old(runtime).Some?
    {
      if runtime.None? {
        return false;
      }
      api.Use(runtime.value);
      ok := true;
    }

    /** The generate request's stream: the runtime is in use when it starts and at every piece. */
    method StreamGeneration(pieces: nat) returns (streamed: bool)
      modifies this, api
      ensures View() == Served(old(View()), Generate(pieces)) && streamed == old(runtime).Some?
    {
      if runtime.None? {
        return false;
      }
      api.Use(runtime.value);
      for i := 0 to pieces
        invariant View() == Served(old(View()), Generate(pieces)) && runtime == old(runtime)
      {
        api.Use(runtime.value);
      }
      streamed := true;
    }
  }
}
