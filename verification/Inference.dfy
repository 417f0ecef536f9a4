/** The inference engine over an abstract llama.cpp: handle lifecycle, context accounting and the token loop. */
module Inference {
  import opened Wrappers
  import Memory

  // ---------- Foreign code ----------

  type Handle = nat

  /** The handles llama.cpp has given out and not yet got back. Its preconditions are the library's: a handle is
      freed once, and a model only when no context uses it. */
  class Llama {
    var next: Handle
    var models: set<Handle>
    var contexts: map<Handle, Handle>

    ghost predicate Valid()
      reads this
    {
      && (forall h :: h in models || h in contexts ==> h < next)
      && forall c :: c in contexts ==> contexts[c] in models
    }

    constructor ()
      ensures Valid() && models == {} && contexts == map[]
    {
      next, models, contexts := 0, {}, map[];
    }

    method LoadModel(works: bool) returns (model: Option<Handle>)
      requires Valid()
      modifies this
      ensures Valid() && contexts == old(contexts) && model.Some? == works
      ensures models == if works then old(models) + {model.value} else old(models)
      ensures works ==> model.value !in old(models) && model.value !in contexts
      ensures next == if works then old(next) + 1 else old(next)
    {
      if !works {
        return None;
      }
      model := Some(next);
      models, next := models + {next}, next + 1;
    }

    method InitContext(model: Handle, works: bool) returns (context: Option<Handle>)
      requires Valid() && model in models
      modifies this
      ensures Valid() && models == old(models) && context.Some? == works
      ensures contexts == if works then old(contexts)[context.value := model] else old(contexts)
      ensures works ==> context.value !in old(contexts)
      ensures next == if works then old(next) + 1 else old(next)
    {
      if !works {
        return None;
      }
      context := Some(next);
      contexts, next := contexts[next := model], next + 1;
    }

    method FreeContext(context: Handle)
      requires Valid() && context in contexts
      modifies this
      ensures Valid() && models == old(models) && contexts == old(contexts) - {context} && next == old(next)
    {
      contexts := contexts - {context};
    }

    method FreeModel(model: Handle)
      requires Valid() && model in models && model !in contexts.Values
      modifies this
      ensures Valid() && models == old(models) - {model} && contexts == old(contexts) && next == old(next)
    {
      models := models - {model};
      assert forall c :: c in contexts ==> contexts[c] in contexts.Values;
    }
  }

  // ---------- Context accounting ----------

  class ContextManager {
    const capacity: nat
    var used: nat

    ghost predicate Valid()
      reads this
    {
      used <= capacity
    }

    constructor (capacity: nat)
      ensures Valid() && this.capacity == capacity && used == 0
    {
      this.capacity, used := capacity, 0;
    }

    predicate CanAccept(additional: int)
      reads this
    {
      additional >= 0 && used + additional <= capacity
    }

    method Consume(count: int)
      requires Valid()
      modifies this
      ensures Valid()
      ensures used == if count > 0 && old(used) + count <= capacity then old(used) + count else old(used)
    {
      if count <= 0 {
        return;
      }
      if !CanAccept(count) {
        return;
      }
      used := used + count;
    }

    method Reset()
      modifies this
      ensures Valid() && used == 0
    {
      used := 0;
    }
  }

  // ---------- The engine ----------

  datatype EngineError =
    NoError | ModelFileNotFound | ModelLoadFailed | ContextCreateFailed | TokenizeFailed | DecodeFailed
    | MemoryBudgetExceeded

  datatype EngineConfig = EngineConfig(contextSize: int, maxTokens: int, budgetMb: nat, reserveMb: nat)

  /** What the file system and llama.cpp answer during one load. */
  datatype LoadOracle = LoadOracle(fileExists: bool, modelLoads: bool, hp: Memory.Hyperparams, modelBytes: nat,
                                   contextCreates: bool, capacity: nat)

  ghost predicate ConfigFits(config: EngineConfig) {
    config.budgetMb <= 131072 && config.reserveMb < config.budgetMb
  }

  predicate MemorySafe(config: EngineConfig, oracle: LoadOracle) {
    Memory.Safe(Memory.Assembled(oracle.hp, oracle.modelBytes, config.contextSize),
                config.budgetMb * Memory.MEGABYTE, config.reserveMb * Memory.MEGABYTE)
  }

  /** The outcome of a load: the first gate that fails, in order. */
  function LoadOutcome(config: EngineConfig, oracle: LoadOracle): EngineError {
    if !oracle.fileExists then ModelFileNotFound
    else if !oracle.modelLoads then ModelLoadFailed
    else if !MemorySafe(config, oracle) then MemoryBudgetExceeded
    else if !oracle.contextCreates then ContextCreateFailed
    else NoError
  }

  /** What a load must fit into the budget, in unbounded arithmetic: the weights, the keys and values of every layer and
      position at two bytes an element, sixteen bytes of compute buffer for each position and element, 180 MiB of
      overhead and the reserve. */
  predicate MemoryFits(config: EngineConfig, oracle: LoadOracle) {
    var hp, ctx := oracle.hp, config.contextSize;
    && 0 < hp.layers <= 2048 && 0 < hp.embd <= 1048576 && 0 < hp.kvHeads <= hp.heads <= 4096 && 0 < ctx <= 16777216
    && oracle.modelBytes + 2 * hp.layers * ctx * (hp.embd * hp.kvHeads / hp.heads) * 2 + ctx * hp.embd * 16
       + 180 * 1024 * 1024 + config.reserveMb * 1024 * 1024 <= config.budgetMb * 1024 * 1024
  }

  lemma MemorySafeExactly(config: EngineConfig, oracle: LoadOracle)
    ensures MemorySafe(config, oracle) <==> MemoryFits(config, oracle)
  {
    var hp, ctx := oracle.hp, config.contextSize;
    if Memory.KvInputsSane(hp, ctx, 2) && Memory.ComputeInputsSane(hp, ctx) {
      var kv, compute := Memory.KvCacheBytes(hp, ctx, 2), Memory.ComputeBytes(hp, ctx);
      assert compute == ctx * hp.embd * 16;
      assert kv == 2 * hp.layers * ctx * (hp.embd * hp.kvHeads / hp.heads) * 2;
      hide Memory.KvCacheBytes, Memory.ComputeBytes;
    }
  }

  /** Each error of a load has its cause. */
  lemma LoadOutcomeExactly(config: EngineConfig, oracle: LoadOracle)
    ensures var error, found := LoadOutcome(config, oracle), oracle.fileExists;
            && (error == ModelFileNotFound <==> !found)
            && (error == ModelLoadFailed <==> found && !oracle.modelLoads)
            && (error == MemoryBudgetExceeded <==> found && oracle.modelLoads && !MemoryFits(config, oracle))
            && (error == ContextCreateFailed <==>
                  found && oracle.modelLoads && MemoryFits(config, oracle) && !oracle.contextCreates)
            && (error == NoError <==>
                  found && oracle.modelLoads && MemoryFits(config, oracle) && oracle.contextCreates)
  {
    hide MemorySafe, MemoryFits;
    MemorySafeExactly(config, oracle);
  }

  lemma SmallerContextsFit(config: EngineConfig, oracle: LoadOracle, smaller: int)
    requires MemoryFits(config, oracle) && 0 < smaller <= config.contextSize
    ensures MemoryFits(config.(contextSize := smaller), oracle)
  {
    MemorySafeExactly(config, oracle);
    MemorySafeExactly(config.(contextSize := smaller), oracle);
    hide MemoryFits, Memory.Safe, Memory.Assembled;
    Memory.SmallerContextsStaySafe(oracle.hp, oracle.modelBytes, config.contextSize, smaller,
                                   config.budgetMb * Memory.MEGABYTE, config.reserveMb * Memory.MEGABYTE);
  }

  /** How many llama.cpp handles a load creates: none before the model, no context unless the decision was safe. */
  function HandlesCreated(error: EngineError): nat {
    if error == NoError then 2 else if error == MemoryBudgetExceeded || error == ContextCreateFailed then 1 else 0
  }

  type Token = nat

  /** Everything one generate call meets: tokenizer, decoder, sampler and callback, each of them arbitrary.
      sample takes the step and the batch index whose logits are read. */
  datatype GenerateOracle = GenerateOracle(
    promptTokens: Option<seq<Token>>, promptDecodes: bool, samplerValid: bool, sample: (nat, nat) -> Token,
    endOfGeneration: Token -> bool, callbackContinues: (nat, Token) -> bool, decodes: (nat, Token) -> bool)

  datatype Generated = Generated(error: EngineError, callbacks: nat, decoded: nat)

  /** The token loop from step i, with used context positions out of capacity. */
  function TokenLoop(o: GenerateOracle, max: int, capacity: nat, used: nat, i: nat, batchIndex: nat): Generated
    decreases max - i
  {
    if i >= max then Generated(NoError, 0, 0)
    else
      var token := o.sample(i, batchIndex);
      if o.endOfGeneration(token) then Generated(NoError, 0, 0)
      else if !o.callbackContinues(i, token) || used + 1 > capacity then Generated(NoError, 1, 0)
      else if !o.decodes(i, token) then Generated(DecodeFailed, 1, 0)
      else
        var rest := TokenLoop(o, max, capacity, used + 1, i + 1, 0);
        Generated(rest.error, rest.callbacks + 1, rest.decoded + 1)
  }

  lemma TokenLoopStep(o: GenerateOracle, max: int, capacity: nat, used: nat, i: nat, batchIndex: nat)
    ensures var token := o.sample(i, batchIndex);
            && TokenLoop(o, max, capacity, used, i, batchIndex)
               == if i >= max || o.endOfGeneration(token) then Generated(NoError, 0, 0)
                  else if !o.callbackContinues(i, token) || used + 1 > capacity then Generated(NoError, 1, 0)
                  else if !o.decodes(i, token) then Generated(DecodeFailed, 1, 0)
                  else
                    var rest := TokenLoop(o, max, capacity, used + 1, i + 1, 0);
                    Generated(rest.error, rest.callbacks + 1, rest.decoded + 1)
  {
  }

  /** The prompt reaches the context: it is non-empty, it fits and it decodes. */
  predicate PromptDecoded(o: GenerateOracle, capacity: nat, used: nat) {
    o.promptTokens.Some? && 0 < |o.promptTokens.value| <= capacity - used && o.promptDecodes
  }

  function GenerateOutcome(o: GenerateOracle, max: int, capacity: nat, used: nat): Generated {
    if o.promptTokens.None? || o.promptTokens.value == [] then Generated(TokenizeFailed, 0, 0)
    else
      var n := |o.promptTokens.value|;
      if used + n > capacity then Generated(NoError, 0, 0)
      else if !o.promptDecodes || !o.samplerValid then Generated(DecodeFailed, 0, 0)
      else TokenLoop(o, max, capacity, used + n, 0, n - 1)
  }

  lemma {:induction false} TokenLoopBounds(o: GenerateOracle, max: int, capacity: nat, used: nat, i: nat,
                                              batchIndex: nat)
    requires used <= capacity
    ensures var g := TokenLoop(o, max, capacity, used, i, batchIndex);
            && (i <= max ==> i + g.callbacks <= max) && (i > max ==> g.callbacks == 0)
            && g.callbacks - 1 <= g.decoded <= g.callbacks && used + g.decoded <= capacity
            && (g.error == DecodeFailed ==> g.callbacks == g.decoded + 1)
    decreases max - i
  {
    if i < max && used < capacity {
      TokenLoopBounds(o, max, capacity, used + 1, i + 1, 0);
    }
  }

  /** Whatever the foreign code answers: at most max callbacks, one more than the decoded tokens at most, and no
      more positions used than the context has. */
  lemma GenerateBounds(o: GenerateOracle, max: nat, capacity: nat, used: nat)
    requires used <= capacity
    ensures var g := GenerateOutcome(o, max, capacity, used);
            && g.callbacks <= max && g.callbacks - 1 <= g.decoded <= g.callbacks
            && used + (if PromptDecoded(o, capacity, used) then |o.promptTokens.value| + g.decoded else 0) <= capacity
            && (!PromptDecoded(o, capacity, used) ==> g.callbacks == 0)
  {
    if o.promptTokens.Some? && used + |o.promptTokens.value| <= capacity {
      var n := |o.promptTokens.value|;
      TokenLoopBounds(o, max, capacity, used + n, 0, if n > 0 then n - 1 else 0);
    }
  }

  // ---------- What a generation streams ----------

  /** The token sampled at step j, when step i reads the logits at b and later steps read those at 0. */
  function TokenFrom(o: GenerateOracle, i: nat, b: nat, j: nat): Token { o.sample(j, if j == i then b else 0) }

  /** At step j the token is no end of generation, the callback wants more, there is room, and the token decodes. */
  predicate GoesOn(o: GenerateOracle, room: int, i: nat, b: nat, j: nat) {
    var t := TokenFrom(o, i, b, j);
    !o.endOfGeneration(t) && o.callbackContinues(j, t) && j < i + room && o.decodes(j, t)
  }

  /** The loop from step i, with room for so many more tokens, stops at the first step that does not go on. */
  ghost predicate StopsFirst(o: GenerateOracle, max: int, room: int, i: nat, b: nat, g: Generated) {
    var stop, t := i + g.decoded, TokenFrom(o, i, b, i + g.decoded);
    && (forall j :: i <= j < stop ==> GoesOn(o, room, i, b, j))
    && (g.decoded > 0 ==> stop <= max) && (stop < max ==> !GoesOn(o, room, i, b, stop))
    && g.callbacks == g.decoded + (if stop < max && !o.endOfGeneration(t) then 1 else 0)
    && g.error == (if stop < max && !o.endOfGeneration(t) && o.callbackContinues(stop, t) && stop < i + room
                      && !o.decodes(stop, t) then DecodeFailed else NoError)
  }

  lemma {:induction false} TokenLoopStopsFirst(o: GenerateOracle, max: int, capacity: nat, used: nat, i: nat, b: nat)
    ensures StopsFirst(o, max, capacity - used, i, b, TokenLoop(o, max, capacity, used, i, b))
    decreases max - i
  {
    if i < max && GoesOn(o, capacity - used, i, b, i) {
      TokenLoopStopsFirst(o, max, capacity, used + 1, i + 1, 0);
      var g := TokenLoop(o, max, capacity, used, i, b);
      var room, more, next := capacity - used, capacity - used - 1, i + 1;
      forall j | next <= j <= i + g.decoded
        ensures GoesOn(o, room, i, b, j) <==> GoesOn(o, more, next, 0, j)
      {
      }
    }
  }

  /** The prompt has been decoded and a sampler built: generation starts. */
  predicate Starts(o: GenerateOracle, capacity: nat, used: nat) {
    PromptDecoded(o, capacity, used) && o.samplerValid
  }

  /** The token of step i: the first is sampled from the logits of the prompt's last token. */
  function TokenAt(o: GenerateOracle, i: nat): Token
    requires o.promptTokens.Some? && o.promptTokens.value != []
  {
    o.sample(i, if i == 0 then |o.promptTokens.value| - 1 else 0)
  }

  predicate StepGoesOn(o: GenerateOracle, capacity: nat, used: nat, i: nat)
    requires o.promptTokens.Some? && o.promptTokens.value != []
  {
    && !o.endOfGeneration(TokenAt(o, i)) && o.callbackContinues(i, TokenAt(o, i))
    && used + |o.promptTokens.value| + i + 1 <= capacity && o.decodes(i, TokenAt(o, i))
  }

  /** A generation that starts decodes the tokens of all steps before the first that does not go on, or max of them.
      That step's token is handed out too unless it is the end of generation, and the generation fails exactly
      when decoding it is what fails. */
  lemma GenerateExactly(o: GenerateOracle, max: int, capacity: nat, used: nat)
    requires used <= capacity && Starts(o, capacity, used)
    ensures var g := GenerateOutcome(o, max, capacity, used);
            var stop, t := g.decoded, TokenAt(o, g.decoded);
            && (0 < stop ==> stop <= max) && (forall i: nat :: i < stop ==> StepGoesOn(o, capacity, used, i))
            && (stop < max ==> !StepGoesOn(o, capacity, used, stop))
            && g.callbacks == stop + (if stop < max && !o.endOfGeneration(t) then 1 else 0)
            && g.error == (if stop < max && !o.endOfGeneration(t) && o.callbackContinues(stop, t)
                              && used + |o.promptTokens.value| + stop + 1 <= capacity && !o.decodes(stop, t)
                           then DecodeFailed else NoError)
  {
    hide TokenLoop;
    var n := |o.promptTokens.value|;
    TokenLoopStopsFirst(o, max, capacity, used + n, 0, n - 1);
    var room, last := capacity - used - n, n - 1;
    forall i: nat ensures StepGoesOn(o, capacity, used, i) <==> GoesOn(o, room, 0, last, i)
    {
    }
  }

  /** When every step goes on, all max tokens are streamed. */
  lemma EveryTokenIsStreamed(o: GenerateOracle, max: nat, capacity: nat, used: nat)
    requires used <= capacity && Starts(o, capacity, used)
    requires forall i: nat :: i < max ==> StepGoesOn(o, capacity, used, i)
    ensures GenerateOutcome(o, max, capacity, used) == Generated(NoError, max, max)
  {
    hide GenerateOutcome, StepGoesOn;
    GenerateExactly(o, max, capacity, used);
  }

  /** A generation that does not start streams nothing, and says why: no tokens, a prompt too long for what is left of
      the context (no error), or a prompt that does not decode or a sampler that cannot be built. */
  lemma GenerateRefused(o: GenerateOracle, max: int, capacity: nat, used: nat)
    requires used <= capacity && !Starts(o, capacity, used)
    ensures var g, p := GenerateOutcome(o, max, capacity, used), o.promptTokens;
            && g.callbacks == g.decoded == 0
            && g.error == if p.None? || |p.value| == 0 then TokenizeFailed
                          else if |p.value| > capacity - used then NoError
                          else DecodeFailed
  {
  }

  class Engine {
    const llama: Llama
    var model: Option<Handle>
    var ctx: Option<Handle>
    var contextManager: ContextManager?
    var config: EngineConfig

    ghost function Owned(): set<object>
      reads this
    {
      {this, llama} + (if contextManager == null then {} else {contextManager})
    }

    /** The live llama.cpp handles are exactly the non-null fields, and the context belongs to the model. */
    ghost predicate Valid()
      reads Owned()
    {
      && llama.Valid()
      && llama.models == (if model.Some? then {model.value} else {})
      && llama.contexts == (if ctx.Some? && model.Some? then map[ctx.value := model.value] else map[])
      && (ctx.Some? ==> model.Some?)
      && (contextManager != null <==> ctx.Some?)
      && (contextManager != null ==> contextManager.Valid())
    }

    predicate IsLoaded()
      reads this
    {
      model.Some? && ctx.Some?
    }

    constructor (llama: Llama, config: EngineConfig)
      requires llama.Valid() && llama.models == {} && llama.contexts == map[]
      ensures Valid() && this.llama == llama && model.None? && ctx.None? && this.config == config
    {
      this.llama, this.config := llama, config;
      model, ctx, contextManager := None, None, null;
    }

    /** Releases the context before the model; a second call finds nothing to release. */
    method Unload()
      requires Valid()
      modifies this, llama
      ensures Valid() && model.None? && ctx.None? && contextManager == null && config == old(config)
      ensures llama.next == old(llama.next)
    {
      contextManager := null;
      if ctx.Some? {
        llama.FreeContext(ctx.value);
        ctx := None;
      }
      if model.Some? {
        llama.FreeModel(model.value);
        model := None;
      }
    }

    /** Loads a model. A context is created only after a safe memory decision; every failure leaves nothing live. */
    method Load(newConfig: EngineConfig, oracle: LoadOracle) returns (error: EngineError)
      requires Valid() && ConfigFits(newConfig) && oracle.modelBytes <= MAX_U64
      modifies this, llama
      ensures Valid() && error == LoadOutcome(newConfig, oracle)
      ensures error == MemoryBudgetExceeded <==>
                oracle.fileExists && oracle.modelLoads && !MemoryFits(newConfig, oracle)
      ensures error == NoError ==>
                IsLoaded() && fresh(contextManager) && contextManager.used == 0
                && contextManager.capacity == oracle.capacity && config == newConfig
      ensures error != NoError ==> model.None? && ctx.None? && config == old(config)
      ensures llama.next == old(llama.next) + HandlesCreated(error)
    {
      hide MemoryFits;
      MemorySafeExactly(newConfig, oracle);
      Unload();
      if !oracle.fileExists {
        return ModelFileNotFound;
      }
      model := llama.LoadModel(oracle.modelLoads);
      if model.None? {
        return ModelLoadFailed;
      }
      var estimate := Memory.Assemble(oracle.hp, oracle.modelBytes, newConfig.contextSize);
      var safe := Memory.Evaluate(estimate, newConfig.budgetMb * Memory.MEGABYTE,
                                  newConfig.reserveMb * Memory.MEGABYTE);
      if !safe {
        llama.FreeModel(model.value);
        model := None;
        return MemoryBudgetExceeded;
      }
      ctx := llama.InitContext(model.value, oracle.contextCreates);
      if ctx.None? {
        llama.FreeModel(model.value);
        model := None;
        return ContextCreateFailed;
      }
      contextManager := new ContextManager(oracle.capacity);
      config := newConfig;
      return NoError;
    }

    method ResetContext()
      requires Valid()
      modifies contextManager
      ensures Valid() && (contextManager != null ==> contextManager.used == 0)
    {
      if contextManager != null {
        contextManager.Reset();
      }
    }

    /** Streams a response. callbacks counts the on_token invocations. */
    method Generate(o: GenerateOracle) returns (error: EngineError, callbacks: nat, ghost decoded: nat)
      requires Valid()
      modifies contextManager
      ensures Valid()
      ensures !IsLoaded() ==> error == ContextCreateFailed && callbacks == 0
      ensures IsLoaded() ==>
                var used := old(contextManager.used);
                && Generated(error, callbacks, decoded)
                   == GenerateOutcome(o, config.maxTokens, contextManager.capacity, used)
                && contextManager.used == used + (if PromptDecoded(o, contextManager.capacity, used)
                                                  then |o.promptTokens.value| + decoded else 0)
    {
      callbacks, decoded := 0, 0;
      if !IsLoaded() || contextManager == null {
        return ContextCreateFailed, 0, 0;
      }
      if o.promptTokens.None? {
        return TokenizeFailed, 0, 0;
      }
      var prompt := o.promptTokens.value;
      if |prompt| == 0 {
        return TokenizeFailed, 0, 0;
      }
      if !contextManager.CanAccept(|prompt|) {
        return NoError, 0, 0;
      }
      if !o.promptDecodes {
        return DecodeFailed, 0, 0;
      }
      contextManager.Consume(|prompt|);
      if !o.samplerValid {
        return DecodeFailed, 0, 0;
      }
      error, callbacks, decoded := StreamTokens(o, |prompt| - 1);
    }

    /** The token loop: sample, stop at end of generation, hand the piece to the callback, then decode it. */
    method StreamTokens(o: GenerateOracle, promptIndex: nat)
      returns (error: EngineError, callbacks: nat, ghost decoded: nat)
      requires Valid() && contextManager != null
      modifies contextManager
      ensures Valid() && contextManager.used == old(contextManager.used) + decoded
      ensures Generated(error, callbacks, decoded)
              == TokenLoop(o, config.maxTokens, contextManager.capacity, old(contextManager.used), 0, promptIndex)
    {
      hide TokenLoop;
      callbacks, decoded := 0, 0;
      var lastBatchIndex := promptIndex;
      var generated := 0;
      ghost var start := contextManager.used;
      ghost var whole := TokenLoop(o, config.maxTokens, contextManager.capacity, start, 0, lastBatchIndex);
      while generated < config.maxTokens
        invariant Valid() && callbacks == decoded == generated && contextManager.used == start + decoded
        invariant var rest := TokenLoop(o, config.maxTokens, contextManager.capacity, contextManager.used,
                                        generated, lastBatchIndex);
                  whole == Generated(rest.error, callbacks + rest.callbacks, decoded + rest.decoded)
        decreases config.maxTokens - generated
      {
        TokenLoopStep(o, config.maxTokens, contextManager.capacity, contextManager.used, generated, lastBatchIndex);
        var token := o.sample(generated, lastBatchIndex);
        if o.endOfGeneration(token) {
          break;
        }
        callbacks := callbacks + 1;
        if !o.callbackContinues(generated, token) {
          return NoError, callbacks, decoded;
        }
        if !contextManager.CanAccept(1) {
          return NoError, callbacks, decoded;
        }
        if !o.decodes(generated, token) {
          return DecodeFailed, callbacks, decoded;
        }
        contextManager.Consume(1);
        decoded := decoded + 1;
        lastBatchIndex := 0;
        generated := generated + 1;
      }
      TokenLoopStep(o, config.maxTokens, contextManager.capacity, contextManager.used, generated, lastBatchIndex);
      return NoError, callbacks, decoded;
    }
  }

  // ---------- Whole lifetimes ----------

  datatype Command =
    | DoLoad(config: EngineConfig, load: LoadOracle)
    | DoGenerate(generate: GenerateOracle)
    | DoReset
    | DoUnload

  ghost predicate Admissible(c: Command) {
    c.DoLoad? ==> ConfigFits(c.config) && c.load.modelBytes <= MAX_U64
  }

  /** llama.cpp's live handles, the engine's fields and its context accounting at one moment. */
  datatype Snapshot = Snapshot(models: set<Handle>, contexts: map<Handle, Handle>, model: Option<Handle>,
                               ctx: Option<Handle>, config: EngineConfig, used: nat, capacity: nat)
  {
    /** The live handles are exactly the non-null fields, the context belongs to the model, and it does not overflow. */
    predicate Exact() {
      && models == (if model.Some? then {model.value} else {})
      && contexts == (if ctx.Some? && model.Some? then map[ctx.value := model.value] else map[])
      && (ctx.Some? ==> model.Some?) && used <= capacity
    }

    predicate Empty() { model.None? && ctx.None? && used == 0 }
  }

  /** How one command moves an engine from one moment to the next. */
  ghost predicate Moves(before: Snapshot, c: Command, after: Snapshot) {
    match c
    case DoLoad(config, load) =>
      if LoadOutcome(config, load) == NoError then
        after.ctx.Some? && after.used == 0 && after.capacity == load.capacity && after.config == config
      else after.Empty() && after.config == before.config
    case DoGenerate(o) =>
      if before.ctx.None? || !PromptDecoded(o, before.capacity, before.used) then after == before
      else
        var decoded := GenerateOutcome(o, before.config.maxTokens, before.capacity, before.used).decoded;
        after == before.(used := before.used + |o.promptTokens.value| + decoded)
    case DoReset => after == before.(used := 0)
    case DoUnload => after.Empty() && after.config == before.config
  }

  ghost function View(e: Engine): (s: Snapshot)
    requires e.Valid()
    reads e, e.Owned()
    ensures s.Exact()
  {
    Snapshot(e.llama.models, e.llama.contexts, e.model, e.ctx, e.config,
             if e.contextManager == null then 0 else e.contextManager.used,
             if e.contextManager == null then 0 else e.contextManager.capacity)
  }

  method Perform(engine: Engine, command: Command)
    requires engine.Valid() && Admissible(command)
    modifies engine, engine.llama, engine.contextManager
    ensures engine.Valid() && Moves(old(View(engine)), command, View(engine))
    ensures var m := engine.contextManager; m == null || m == old(engine.contextManager) || fresh(m)
  {
    hide LoadOutcome, GenerateOutcome, PromptDecoded;
    match command {
      case DoLoad(config, load) => var _ := engine.Load(config, load);
      case DoGenerate(o) =>
        GenerateDecodesNothing(o, engine.config.maxTokens, View(engine).capacity, View(engine).used);
        var _, _, _ := engine.Generate(o);
      case DoReset => engine.ResetContext();
      case DoUnload => engine.Unload();
    }
  }

  /** A prompt that does not reach the context is followed by no decoded token. */
  lemma GenerateDecodesNothing(o: GenerateOracle, max: int, capacity: nat, used: nat)
    requires used <= capacity
    ensures !PromptDecoded(o, capacity, used) ==> GenerateOutcome(o, max, capacity, used).decoded == 0
  {
  }

  /** An engine driven by any commands, with any failures, and then destroyed. The history has its state at the start,
      after each command and after the destruction: at every moment the live handles are the non-null fields and the
      context has not overflowed, and at the end nothing is live. */
  method Lifetime(llama: Llama, config: EngineConfig, commands: seq<Command>) returns (ghost history: seq<Snapshot>)
    requires llama.Valid() && llama.models == {} && llama.contexts == map[]
    requires forall i :: 0 <= i < |commands| ==> Admissible(commands[i])
    modifies llama
    ensures llama.Valid() && llama.models == {} && llama.contexts == map[]
    ensures |history| == |commands| + 2 && history[0].Empty() && history[|commands| + 1].Empty()
    ensures forall i :: 0 <= i < |history| ==> history[i].Exact()
    ensures forall i :: 0 <= i < |commands| ==> Moves(history[i], commands[i], history[i + 1])
  {
    hide Moves, Snapshot.Exact, Admissible;
    var engine := new Engine(llama, config);
    history := [View(engine)];
    for i := 0 to |commands|
      invariant engine.Valid() && engine.llama == llama && fresh(engine)
      invariant engine.contextManager == null || fresh(engine.contextManager)
      invariant |history| == i + 1 && history[i] == View(engine) && history[0].Empty()
      invariant forall j :: 0 <= j <= i ==> history[j].Exact()
      invariant forall j :: 0 <= j < i ==> Moves(history[j], commands[j], history[j + 1])
    {
      Perform(engine, commands[i]);
      history := history + [View(engine)];
    }
    engine.Unload();
    history := history + [View(engine)];
  }
}
