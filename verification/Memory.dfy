/** Memory admission: overflow-checked estimates, a saturating sum and the budget decision, over 64-bit unsigned
    arithmetic. */
module Memory {
  import opened Wrappers

  const MAX_LAYERS: int := 2048
  const MAX_EMBD: int := 0x10_0000
  const MAX_HEADS: int := 4096
  const MAX_CTX: int := 0x100_0000
  const MAX_BYTES_PER_ELEMENT: int := 8
  const COMPUTE_BUFFER_MULTIPLIER: nat := 4
  const RUNTIME_OVERHEAD_BYTES: nat := 180 * 1024 * 1024
  const MEGABYTE: nat := 1024 * 1024

  datatype Hyperparams = Hyperparams(layers: int, embd: int, heads: int, kvHeads: int)

  predicate InSaneRange(hp: Hyperparams) {
    && 0 < hp.layers <= MAX_LAYERS && 0 < hp.embd <= MAX_EMBD
    && 0 < hp.heads <= MAX_HEADS && 0 < hp.kvHeads <= MAX_HEADS && hp.kvHeads <= hp.heads
  }

  // ---------- Monotonicity of products ----------

  lemma MulMonotone(a: nat, b: nat, c: nat, d: nat)
    requires a <= c && b <= d
    ensures a * b <= c * d
  {
    assert c * d - a * b == c * (d - b) + (c - a) * b;
  }

  lemma DivBounds(n: nat, d: nat)
    requires d > 0
    ensures d * (n / d) <= n < d * (n / d) + d
  {
  }

  lemma DivMonotone(n: nat, m: nat, d: nat)
    requires d > 0 && n <= d * m
    ensures n / d <= m
  {
    DivBounds(n, d);
    if n / d > m {
      MulMonotone(d, m + 1, d, n / d);
    }
  }

  lemma QuotientIsNat(a: nat, b: nat, d: nat)
    requires d > 0
    ensures a * b / d >= 0
  {
    MulMonotone(0, 0, a, b);
    DivBounds(a * b, d);
  }

  // ---------- Estimates ----------

  /** Multiplies unless the product would exceed 64 bits, tested by a division. */
  method CheckedMul(a: nat, b: nat) returns (ok: bool, product: nat)
    requires a <= MAX_U64 && b <= MAX_U64
    ensures ok <==> a * b <= MAX_U64
    ensures ok ==> product == a * b
  {
    if a == 0 || b == 0 {
      return true, 0;
    }
    DivBounds(MAX_U64, b);
    if a > MAX_U64 / b {
      assert (MAX_U64 / b + 1) * b <= a * b by { MulMonotone(MAX_U64 / b + 1, b, a, b); }
      return false, 0;
    }
    assert a * b <= MAX_U64 / b * b by { MulMonotone(a, b, MAX_U64 / b, b); }
    return true, a * b;
  }

  function Product(start: nat, factors: seq<nat>): nat {
    if factors == [] then start else Product(start, factors[..|factors| - 1]) * factors[|factors| - 1]
  }

  /** The running product of the factors; None as soon as one step overflows. */
  method CheckedProduct(start: nat, factors: seq<nat>) returns (r: Option<nat>)
    requires start <= MAX_U64 && forall i :: 0 <= i < |factors| ==> factors[i] <= MAX_U64
    ensures r.Some? <==> forall i :: 0 <= i <= |factors| ==> Product(start, factors[..i]) <= MAX_U64
    ensures r.Some? ==> r.value == Product(start, factors)
  {
    var bytes := start;
    for i := 0 to |factors|
      invariant bytes == Product(start, factors[..i])
      invariant forall j :: 0 <= j <= i ==> Product(start, factors[..j]) <= MAX_U64
    {
      var ok, next := CheckedMul(bytes, factors[i]);
      assert factors[..i + 1][..i] == factors[..i];
      if !ok {
        return None;
      }
      bytes := next;
    }
    assert factors[..|factors|] == factors;
    r := Some(bytes);
  }

  lemma ProductOfFour(start: nat, a: nat, b: nat, c: nat, d: nat)
    ensures var f := [a, b, c, d];
            && Product(start, f[..0]) == start && Product(start, f[..1]) == start * a
            && Product(start, f[..2]) == start * a * b && Product(start, f[..3]) == start * a * b * c
            && Product(start, f[..4]) == Product(start, f) == start * a * b * c * d
  {
    var f := [a, b, c, d];
    assert f[..1][..0] == f[..0] && f[..2][..1] == f[..1] && f[..3][..2] == f[..2] && f[..4][..3] == f[..3];
    assert f[..4] == f;
  }

  /** The grouped-query embedding width, truncated as the code truncates it. */
  function EmbdGqa(hp: Hyperparams): nat
    requires InSaneRange(hp)
  {
    QuotientIsNat(hp.embd, hp.kvHeads, hp.heads);
    hp.embd * hp.kvHeads / hp.heads
  }

  function KvCacheBytes(hp: Hyperparams, ctx: int, width: int): nat
    requires InSaneRange(hp) && ctx > 0 && width > 0
  {
    2 * hp.layers * ctx * EmbdGqa(hp) * width
  }

  function ComputeBytes(hp: Hyperparams, batch: int): nat
    requires InSaneRange(hp) && batch > 0
  {
    batch * hp.embd * 4 * COMPUTE_BUFFER_MULTIPLIER
  }

  predicate KvInputsSane(hp: Hyperparams, ctx: int, width: int) {
    InSaneRange(hp) && 0 < ctx <= MAX_CTX && 0 < width <= MAX_BYTES_PER_ELEMENT
  }

  predicate ComputeInputsSane(hp: Hyperparams, batch: int) { InSaneRange(hp) && 0 < batch <= MAX_CTX }

  lemma EmbdGqaBound(hp: Hyperparams)
    requires InSaneRange(hp)
    ensures EmbdGqa(hp) <= hp.embd && hp.embd * hp.kvHeads <= MAX_EMBD * MAX_HEADS
  {
    MulMonotone(hp.embd, hp.kvHeads, hp.embd, hp.heads);
    assert hp.embd * hp.heads == hp.heads * hp.embd;
    DivMonotone(hp.embd * hp.kvHeads, hp.embd, hp.heads);
    MulMonotone(hp.embd, hp.kvHeads, MAX_EMBD, MAX_HEADS);
  }

  /** No step of either product comes near 2^64 for in-range inputs. */
  lemma KvCacheBound(hp: Hyperparams, ctx: int, width: int)
    requires KvInputsSane(hp, ctx, width)
    ensures 2 * hp.layers <= 0x1000 && 2 * hp.layers * ctx <= 0x10_0000_0000
    ensures 2 * hp.layers * ctx * EmbdGqa(hp) <= 0x100_0000_0000_0000
    ensures KvCacheBytes(hp, ctx, width) <= 0x800_0000_0000_0000
  {
    EmbdGqaBound(hp);
    MulMonotone(2 * hp.layers, ctx, 2 * MAX_LAYERS, MAX_CTX);
    MulMonotone(2 * hp.layers * ctx, EmbdGqa(hp), 2 * MAX_LAYERS * MAX_CTX, MAX_EMBD);
    MulMonotone(2 * hp.layers * ctx * EmbdGqa(hp), width, 2 * MAX_LAYERS * MAX_CTX * MAX_EMBD, MAX_BYTES_PER_ELEMENT);
  }

  lemma ComputeBound(hp: Hyperparams, batch: int)
    requires ComputeInputsSane(hp, batch)
    ensures batch * hp.embd <= 0x1000_0000_0000 && ComputeBytes(hp, batch) <= 0x1_0000_0000_0000
  {
    MulMonotone(batch, hp.embd, MAX_CTX, MAX_EMBD);
  }

  /** Overflow never happens for in-range inputs: the estimate is the unbounded formula, or refused by range. */
  method EstimateKvCacheBytes(hp: Hyperparams, ctx: int, width: int) returns (r: Option<nat>)
    ensures r == if KvInputsSane(hp, ctx, width) then Some(KvCacheBytes(hp, ctx, width)) else None
  {
    if !InSaneRange(hp) || ctx <= 0 || ctx > MAX_CTX || width <= 0 || width > MAX_BYTES_PER_ELEMENT {
      return None;
    }
    EmbdGqaBound(hp);
    KvCacheBound(hp, ctx, width);
    var ok, embdTimesKv := CheckedMul(hp.embd, hp.kvHeads);
    var gqa := embdTimesKv / hp.heads;
    ProductOfFour(2, hp.layers, ctx, gqa, width);
    r := CheckedProduct(2, [hp.layers, ctx, gqa, width]);
  }

  method EstimateComputeBufferBytes(hp: Hyperparams, batch: int) returns (r: Option<nat>)
    ensures r == if ComputeInputsSane(hp, batch) then Some(ComputeBytes(hp, batch)) else None
  {
    if !InSaneRange(hp) || batch <= 0 || batch > MAX_CTX {
      return None;
    }
    ComputeBound(hp, batch);
    ProductOfFour(1, batch, hp.embd, 4, COMPUTE_BUFFER_MULTIPLIER);
    r := CheckedProduct(1, [batch, hp.embd, 4, COMPUTE_BUFFER_MULTIPLIER]);
  }

  /** What the estimate would be with an exact grouped-query width, times the head count: an integer. */
  function ExactKvTimesHeads(hp: Hyperparams, ctx: int, width: int): nat
    requires InSaneRange(hp) && ctx > 0 && width > 0
  {
    ElementUnit(hp, ctx, width) * (hp.embd * hp.kvHeads)
  }

  /** The bytes that one element of width takes, over all layers and context positions, in keys and values. */
  function ElementUnit(hp: Hyperparams, ctx: int, width: int): (u: nat)
    requires InSaneRange(hp) && ctx > 0 && width > 0
    ensures u > 0
  {
    MulMonotone(1, 1, 2 * hp.layers, ctx);
    MulMonotone(1, 1, 2 * hp.layers * ctx, width);
    2 * hp.layers * ctx * width
  }

  /** What truncating the grouped-query width costs, exactly: for each layer, context position and byte of width,
      twice the remainder the division drops. */
  lemma GqaLossExactly(hp: Hyperparams, ctx: int, width: int)
    requires KvInputsSane(hp, ctx, width)
    ensures var unit, rest := ElementUnit(hp, ctx, width), hp.embd * hp.kvHeads % hp.heads;
            && ExactKvTimesHeads(hp, ctx, width) == hp.heads * KvCacheBytes(hp, ctx, width) + unit * rest
            && (ExactKvTimesHeads(hp, ctx, width) == hp.heads * KvCacheBytes(hp, ctx, width) <==> rest == 0)
  {
    var unit, n := ElementUnit(hp, ctx, width), hp.embd * hp.kvHeads;
    assert KvCacheBytes(hp, ctx, width) == unit * EmbdGqa(hp) by {
      MoveFactor(2 * hp.layers * ctx, EmbdGqa(hp), width);
    }
    hide KvCacheBytes, ElementUnit;
    SplitProduct(unit, n, hp.heads);
    if n % hp.heads > 0 {
      MulMonotone(1, 1, unit, n % hp.heads);
    }
  }

  lemma SplitProduct(unit: nat, n: nat, d: nat)
    requires d > 0
    ensures unit * n == d * (unit * (n / d)) + unit * (n % d)
  {
    var q, r := n / d, n % d;
    assert n == d * q + r;
    assert unit * (d * q + r) == unit * (d * q) + unit * r;
    assert unit * (d * q) == d * (unit * q);
  }

  /** So it costs less than two elements' bytes for each layer and context position. */
  lemma GqaTruncationLoss(hp: Hyperparams, ctx: int, width: int)
    requires KvInputsSane(hp, ctx, width)
    ensures hp.heads * KvCacheBytes(hp, ctx, width) <= ExactKvTimesHeads(hp, ctx, width)
            < hp.heads * (KvCacheBytes(hp, ctx, width) + ElementUnit(hp, ctx, width))
  {
    GqaLossExactly(hp, ctx, width);
    hide KvCacheBytes, ElementUnit, ExactKvTimesHeads;
    var unit, kv, rest := ElementUnit(hp, ctx, width), KvCacheBytes(hp, ctx, width), hp.embd * hp.kvHeads % hp.heads;
    assert hp.heads * (kv + unit) == hp.heads * kv + hp.heads * unit;
    assert unit * rest < hp.heads * unit by {
      assert hp.heads * unit - unit * rest == unit * (hp.heads - rest);
      MulMonotone(1, 1, unit, hp.heads - rest);
    }
  }

  /** Which can be far more than a few bytes a layer: with one layer, 8192 positions and 16-bit elements, more than
      32000 bytes. */
  lemma GqaLossExample() returns (hp: Hyperparams)
    ensures hp.layers == 1 && KvInputsSane(hp, 8192, 2)
    ensures ExactKvTimesHeads(hp, 8192, 2) > hp.heads * (KvCacheBytes(hp, 8192, 2) + 32000)
  {
    hp := Hyperparams(1, 2047, 64, 1);
  }

  lemma MoveFactor(a: nat, b: nat, c: nat)
    ensures a * b * c == a * c * b
  {
  }

  // ---------- The estimate and the budget decision ----------

  datatype Estimate = Estimate(valid: bool, weights: nat, kvCache: nat, compute: nat, overhead: nat) {
    predicate Fits64() { weights <= MAX_U64 && kvCache <= MAX_U64 && compute <= MAX_U64 && overhead <= MAX_U64 }

    function Sum(): nat { weights + kvCache + compute + overhead }

    /** What the 64-bit sum gives. */
    function SaturatedSum(): nat { if Sum() <= MAX_U64 then Sum() else MAX_U64 }

    /** Adds the four parts, saturating as soon as the 64-bit addition wraps. */
    method TotalBytes() returns (sum: nat)
      requires Fits64()
      ensures sum == SaturatedSum()
    {
      sum := 0;
      var parts := [weights, kvCache, compute, overhead];
      for i := 0 to 4
        invariant sum <= MAX_U64
        invariant sum == (if i > 0 then weights else 0) + (if i > 1 then kvCache else 0)
                         + (if i > 2 then compute else 0) + (if i > 3 then overhead else 0)
      {
        var next := (sum + parts[i]) % (MAX_U64 + 1);
        if next < sum {
          return MAX_U64;
        }
        sum := next;
      }
    }
  }

  const MAX_BUDGET_BYTES: nat := 131072 * MEGABYTE

  /** What the code decides: the saturated sum against what the reserve leaves of the budget. */
  predicate Decides(e: Estimate, budget: nat, reserve: nat) {
    e.valid && reserve < budget && e.SaturatedSum() <= budget - reserve
  }

  /** The safety decision. */
  method Evaluate(e: Estimate, budget: nat, reserve: nat) returns (safe: bool)
    requires e.Fits64() && budget <= MAX_U64 && reserve <= MAX_U64
    ensures safe == Decides(e, budget, reserve)
    ensures budget <= MAX_BUDGET_BYTES ==> (safe <==> Safe(e, budget, reserve))
  {
    var usable := if reserve < budget then budget - reserve else 0;
    if !e.valid {
      return false;
    }
    var total := e.TotalBytes();
    return usable > 0 && total <= usable;
  }

  /** The promise in unbounded arithmetic: a valid estimate whose exact sum and the reserve fit the budget. */
  predicate Safe(e: Estimate, budget: nat, reserve: nat) {
    e.valid && reserve < budget && e.Sum() + reserve <= budget
  }

  /** The code keeps the promise in unbounded arithmetic exactly when it is not asked, with a budget of 2^64 - 1 and no
      reserve, about a valid estimate whose exact sum does not fit 64 bits. */
  lemma DecidesSafelyExactly(e: Estimate, budget: nat, reserve: nat)
    requires e.Fits64() && budget <= MAX_U64
    ensures Decides(e, budget, reserve) == Safe(e, budget, reserve)
       <==> !(e.valid && budget == MAX_U64 && reserve == 0 && e.Sum() > MAX_U64)
  {
  }

  /** Outside any valid configuration, then, a saturated sum is accepted. */
  lemma SaturatedSumAccepted() returns (e: Estimate)
    ensures e.valid && e.Fits64() && Decides(e, MAX_U64, 0) && !Safe(e, MAX_U64, 0)
  {
    e := Estimate(true, MAX_U64, 1, 0, 0);
  }

  /** The estimate a load assembles: a component that cannot be established invalidates all of it. */
  function Assembled(hp: Hyperparams, modelBytes: nat, ctx: int): Estimate {
    if KvInputsSane(hp, ctx, 2) && ComputeInputsSane(hp, ctx) then
      Estimate(true, modelBytes, KvCacheBytes(hp, ctx, 2), ComputeBytes(hp, ctx), RUNTIME_OVERHEAD_BYTES)
    else Estimate(false, modelBytes, 0, 0, 0)
  }

  method Assemble(hp: Hyperparams, modelBytes: nat, ctx: int) returns (e: Estimate)
    requires modelBytes <= MAX_U64
    ensures e == Assembled(hp, modelBytes, ctx) && e.Fits64()
  {
    var kv := EstimateKvCacheBytes(hp, ctx, 2);
    var compute := EstimateComputeBufferBytes(hp, ctx);
    if kv.None? || compute.None? {
      return Estimate(false, modelBytes, 0, 0, 0);
    }
    KvCacheBound(hp, ctx, 2);
    ComputeBound(hp, ctx);
    return Estimate(true, modelBytes, kv.value, compute.value, RUNTIME_OVERHEAD_BYTES);
  }

  /** What is safe at one context size is safe at every smaller positive one. */
  lemma SmallerContextsStaySafe(hp: Hyperparams, modelBytes: nat, ctx: int, smaller: int, budget: nat, reserve: nat)
    requires 0 < smaller <= ctx && Safe(Assembled(hp, modelBytes, ctx), budget, reserve)
    ensures Safe(Assembled(hp, modelBytes, smaller), budget, reserve)
  {
    MulMonotone(2 * hp.layers, smaller, 2 * hp.layers, ctx);
    MulMonotone(2 * hp.layers * smaller, EmbdGqa(hp), 2 * hp.layers * ctx, EmbdGqa(hp));
    MulMonotone(smaller, hp.embd, ctx, hp.embd);
  }
}
