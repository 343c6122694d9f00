/** Pool use of models, and its validation. */
module CapacityConfig {

  newtype int64 = x: int | -0x8000_0000_0000_0000 <= x < 0x8000_0000_0000_0000

  const MAX_INT64: int64 := 0x7FFF_FFFF_FFFF_FFFF

  datatype ModelConfig = ModelConfig(capacities: map<string, int64>, evictCost: int64)

  datatype Capacity = Missing | Pools(pools: map<string, int64>)

  type Models = map<string, ModelConfig>

  /** What is added up over models: the use of one pool, or the cost of eviction. */
  datatype Measure = Use(pool: string) | EvictCost

  /** An omitted model or capacity counts as zero. */
  function Amount(models: Models, id: string, w: Measure): int64 {
    if id !in models then 0
    else
      match w
      case Use(pool) => if pool in models[id].capacities then models[id].capacities[pool] else 0
      case EvictCost => models[id].evictCost
  }

  /** The total over a set of models. */
  ghost function Total(models: Models, ids: set<string>, w: Measure): int {
    if ids == {} then 0
    else
      var id :| id in ids;
      Amount(models, id, w) as int + Total(models, ids - {id}, w)
  }

  lemma {:induction false} TotalPick(models: Models, ids: set<string>, w: Measure, id: string)
    requires id in ids
    ensures Total(models, ids, w) == Amount(models, id, w) as int + Total(models, ids - {id}, w)
  {
    var x :| x in ids && Total(models, ids, w) == Amount(models, x, w) as int + Total(models, ids - {x}, w);
    if x != id {
      TotalPick(models, ids - {x}, w, id);
      TotalPick(models, ids - {id}, w, x);
      assert ids - {x} - {id} == ids - {id} - {x};
    }
  }

  ghost predicate NonNegative(models: Models, ids: set<string>, w: Measure) {
    forall id | id in ids :: Amount(models, id, w) >= 0
  }

  lemma {:induction false} TotalNonNegative(models: Models, ids: set<string>, w: Measure)
    requires NonNegative(models, ids, w)
    ensures Total(models, ids, w) >= 0
  {
    if ids != {} {
      var id :| id in ids;
      TotalPick(models, ids, w, id);
      TotalNonNegative(models, ids - {id}, w);
    }
  }

  lemma {:induction false} TotalMonotone(models: Models, a: set<string>, b: set<string>, w: Measure)
    requires NonNegative(models, b, w) && a <= b
    ensures Total(models, a, w) <= Total(models, b, w)
  {
    if a == {} {
      TotalNonNegative(models, b, w);
    } else {
      var id :| id in a;
      TotalPick(models, a, w, id);
      TotalPick(models, b, w, id);
      TotalMonotone(models, a - {id}, b - {id}, w);
    }
  }

  /** Unknown models add nothing. */
  lemma {:induction false} TotalKnown(models: Models, ids: set<string>, w: Measure)
    ensures Total(models, ids, w) == Total(models, ids * models.Keys, w)
  {
    if ids != {} {
      var id :| id in ids;
      TotalPick(models, ids, w, id);
      TotalKnown(models, ids - {id}, w);
      if id in models {
        TotalPick(models, ids * models.Keys, w, id);
        assert (ids - {id}) * models.Keys == ids * models.Keys - {id};
      } else {
        assert (ids - {id}) * models.Keys == ids * models.Keys;
      }
    }
  }

  /** Nothing but space. */
  predicate IsBlank(isSpace: char -> bool, s: string) {
    forall i | 0 <= i < |s| :: isSpace(s[i])
  }

  ghost predicate ModelOk(isSpace: char -> bool, model: ModelConfig) {
    && model.evictCost >= 0
    && forall pool | pool in model.capacities :: !IsBlank(isSpace, pool) && model.capacities[pool] >= 0
  }

  ghost predicate PoolsOk(isSpace: char -> bool, pools: map<string, int64>) {
    pools != map[] && forall pool | pool in pools :: !IsBlank(isSpace, pool) && pools[pool] > 0
  }

  /** The model is sound by itself and asks no pool for more than it holds. */
  ghost predicate ModelFits(isSpace: char -> bool, pools: map<string, int64>, model: ModelConfig) {
    && ModelOk(isSpace, model)
    && forall pool | pool in model.capacities :: pool in pools && model.capacities[pool] <= pools[pool]
  }

  /** No sum of uses or costs over distinct models leaves the int64 range. */
  ghost predicate Bounded(pools: map<string, int64>, models: Models) {
    && (forall pool | pool in pools :: Total(models, models.Keys, Use(pool)) <= MAX_INT64 as int)
    && Total(models, models.Keys, EvictCost) <= MAX_INT64 as int
  }

  ghost predicate Acceptable(isSpace: char -> bool, pools: map<string, int64>, models: Models) {
    && PoolsOk(isSpace, pools)
    && (forall id | id in models :: ModelFits(isSpace, pools, models[id]))
    && Bounded(pools, models)
  }

  lemma FittingIsNonNegative(isSpace: char -> bool, pools: map<string, int64>, models: Models, ids: set<string>,
                             w: Measure)
    requires forall id | id in ids && id in models :: ModelFits(isSpace, pools, models[id])
    ensures NonNegative(models, ids, w)
  {
  }

  /** A sum over some models that leaves the range cannot come back into it. */
  lemma OverflowIsUnacceptable(isSpace: char -> bool, pools: map<string, int64>, models: Models,
                               done: set<string>, id: string, w: Measure)
    requires id in models && done <= models.Keys && id !in done && (w.Use? ==> w.pool in pools)
    requires Amount(models, id, w) as int + Total(models, done, w) > MAX_INT64 as int
    ensures !Acceptable(isSpace, pools, models)
  {
    if Acceptable(isSpace, pools, models) {
      FittingIsNonNegative(isSpace, pools, models, models.Keys, w);
      TotalPick(models, done + {id}, w, id);
      assert done + {id} - {id} == done;
      TotalMonotone(models, done + {id}, models.Keys, w);
    }
  }

  // ----- the same, read off the configuration

  /** What models use of a pool together: each what is configured for it, and nothing where nothing is. */
  ghost function PoolUse(models: Models, ids: set<string>, pool: string): int {
    if ids == {} then 0
    else
      var id :| id in ids;
      PoolUse(models, ids - {id}, pool)
      + if id in models && pool in models[id].capacities then models[id].capacities[pool] as int else 0
  }

  /** What evicting models costs together. */
  ghost function EvictionPrice(models: Models, ids: set<string>): int {
    if ids == {} then 0
    else
      var id :| id in ids;
      EvictionPrice(models, ids - {id}) + if id in models then models[id].evictCost as int else 0
  }

  ghost predicate HasText(isSpace: char -> bool, s: string) {
    exists k :: 0 <= k < |s| && !isSpace(s[k])
  }

  ghost predicate InPools(pools: map<string, int64>, model: ModelConfig) {
    && model.evictCost >= 0
    && forall pool | pool in model.capacities :: pool in pools && 0 <= model.capacities[pool] <= pools[pool]
  }

  /** What a capacity configuration has to meet, requirement by requirement. */
  ghost predicate Admissible(isSpace: char -> bool, c: Capacity, models: Models) {
    && c.Pools? && |c.pools| > 0
    && (forall pool | pool in c.pools :: c.pools[pool] > 0 && HasText(isSpace, pool))
    && (forall id | id in models :: InPools(c.pools, models[id]))
    && (forall pool | pool in c.pools :: PoolUse(models, models.Keys, pool) < 0x8000_0000_0000_0000)
    && EvictionPrice(models, models.Keys) < 0x8000_0000_0000_0000
  }

  lemma {:induction false} PoolUseIsTotal(models: Models, ids: set<string>, pool: string)
    ensures PoolUse(models, ids, pool) == Total(models, ids, Use(pool))
  {
    if ids != {} {
      var id :| id in ids && PoolUse(models, ids, pool) == PoolUse(models, ids - {id}, pool)
        + if id in models && pool in models[id].capacities then models[id].capacities[pool] as int else 0;
      PoolUseIsTotal(models, ids - {id}, pool);
      TotalPick(models, ids, Use(pool), id);
    }
  }

  lemma {:induction false} EvictionPriceIsTotal(models: Models, ids: set<string>)
    ensures EvictionPrice(models, ids) == Total(models, ids, EvictCost)
  {
    if ids != {} {
      var id :| id in ids && EvictionPrice(models, ids) == EvictionPrice(models, ids - {id})
        + if id in models then models[id].evictCost as int else 0;
      EvictionPriceIsTotal(models, ids - {id});
      TotalPick(models, ids, EvictCost, id);
    }
  }

  lemma FitsIffInPools(isSpace: char -> bool, pools: map<string, int64>, model: ModelConfig)
    requires PoolsOk(isSpace, pools)
    ensures ModelFits(isSpace, pools, model) <==> InPools(pools, model)
  {
  }

  lemma AcceptableIsAdmissible(isSpace: char -> bool, c: Capacity, models: Models)
    ensures c.Pools? && Acceptable(isSpace, c.pools, models) <==> Admissible(isSpace, c, models)
  {
    forall pool ensures PoolUse(models, models.Keys, pool) == Total(models, models.Keys, Use(pool)) {
      PoolUseIsTotal(models, models.Keys, pool);
    }
    EvictionPriceIsTotal(models, models.Keys);
    if c.Pools? && PoolsOk(isSpace, c.pools) {
      forall id | id in models ensures ModelFits(isSpace, c.pools, models[id]) <==> InPools(c.pools, models[id]) {
        FitsIffInPools(isSpace, c.pools, models[id]);
      }
    }
  }

  /** The sums over some of the models, as the validation keeps them. */
  ghost predicate Summed(pools: map<string, int64>, models: Models, done: set<string>,
                         sums: map<string, int64>, cost: int64) {
    && cost as int == Total(models, done, EvictCost)
    && sums.Keys <= pools.Keys
    && forall pool | pool in pools :: SumAt(sums, pool) as int == Total(models, done, Use(pool))
  }

  /** The sum kept for a pool; zero when there is none yet. */
  function SumAt(sums: map<string, int64>, pool: string): int64 {
    if pool in sums then sums[pool] else 0
  }

  method ValidateModelCapacity(isSpace: char -> bool, model: ModelConfig) returns (ok: bool)
    ensures ok <==> ModelOk(isSpace, model)
  {
    if model.evictCost < 0 { return false; }
    var todo := model.capacities.Keys;
    while todo != {}
      invariant todo <= model.capacities.Keys
      invariant forall pool | pool in model.capacities && pool !in todo ::
                  !IsBlank(isSpace, pool) && model.capacities[pool] >= 0
      decreases todo
    {
      var pool :| pool in todo;
      todo := todo - {pool};
      if IsBlank(isSpace, pool) || model.capacities[pool] < 0 { return false; }
    }
    return true;
  }

  method ValidatePools(isSpace: char -> bool, pools: map<string, int64>) returns (ok: bool)
    requires pools != map[]
    ensures ok <==> PoolsOk(isSpace, pools)
  {
    var todo := pools.Keys;
    while todo != {}
      invariant todo <= pools.Keys
      invariant forall pool | pool in pools && pool !in todo :: !IsBlank(isSpace, pool) && pools[pool] > 0
      decreases todo
    {
      var pool :| pool in todo;
      todo := todo - {pool};
      if IsBlank(isSpace, pool) || pools[pool] <= 0 { return false; }
    }
    return true;
  }

  /** The sums after some pools of one more model. */
  ghost predicate Adding(pools: map<string, int64>, models: Models, done: set<string>, id: string,
                         todo: set<string>, sums: map<string, int64>) {
    && sums.Keys <= pools.Keys
    && forall pool | pool in pools ::
         SumAt(sums, pool) as int == Total(models, done, Use(pool))
           + if pool in todo then 0 else Amount(models, id, Use(pool)) as int
  }

  /** Adds what one model uses of every pool to the sums. */
  method AddUses(isSpace: char -> bool, pools: map<string, int64>, models: Models, id: string,
                 before: map<string, int64>, ghost done: set<string>) returns (ok: bool, sums: map<string, int64>)
    requires id in models && done <= models.Keys && id !in done
    requires forall x | x in done :: ModelFits(isSpace, pools, models[x])
    requires ModelOk(isSpace, models[id])
    requires Adding(pools, models, done, id, models[id].capacities.Keys, before)
    ensures !ok ==> !Acceptable(isSpace, pools, models)
    ensures ok ==> ModelFits(isSpace, pools, models[id]) && Adding(pools, models, done, id, {}, sums)
  {
    var uses := models[id].capacities;
    var todo := uses.Keys;
    ok, sums := true, before;
    while todo != {}
      invariant todo <= uses.Keys
      invariant forall pool | pool in uses && pool !in todo :: pool in pools && uses[pool] <= pools[pool]
      invariant Adding(pools, models, done, id, todo, sums)
      decreases todo
    {
      var pool :| pool in todo;
      if pool !in pools || uses[pool] > pools[pool] {
        return false, sums;
      }
      FittingIsNonNegative(isSpace, pools, models, done, Use(pool));
      TotalNonNegative(models, done, Use(pool));
      if uses[pool] > MAX_INT64 - SumAt(sums, pool) {
        OverflowIsUnacceptable(isSpace, pools, models, done, id, Use(pool));
        return false, sums;
      }
      sums, todo := sums[pool := SumAt(sums, pool) + uses[pool]], todo - {pool};
    }
  }

  /** Accepts exactly the configurations whose pools and models are sound and whose true sums fit in int64,
      whatever order the maps are visited in. */
  method ValidateCapacity(isSpace: char -> bool, c: Capacity, models: Models) returns (ok: bool)
    ensures ok <==> c.Pools? && Acceptable(isSpace, c.pools, models)
    ensures ok <==> Admissible(isSpace, c, models)
  {
    AcceptableIsAdmissible(isSpace, c, models);
    if c == Missing || c.pools == map[] { return false; }
    ok := ValidatePools(isSpace, c.pools);
    if !ok { return false; }
    var sums: map<string, int64> := map[];
    var cost: int64 := 0;
    var todo := models.Keys;
    while todo != {}
      invariant todo <= models.Keys
      invariant forall id | id in models && id !in todo :: ModelFits(isSpace, c.pools, models[id])
      invariant Summed(c.pools, models, models.Keys - todo, sums, cost)
      decreases todo
    {
      var id :| id in todo;
      ghost var done := models.Keys - todo;
      ok, sums, cost := AddModel(isSpace, c.pools, models, id, sums, cost, done);
      if !ok { return false; }
      todo := todo - {id};
      assert models.Keys - todo == done + {id};
    }
    assert models.Keys - todo == models.Keys;
    return true;
  }

  /** One model of the validation loop. */
  method AddModel(isSpace: char -> bool, pools: map<string, int64>, models: Models, id: string,
                  sums0: map<string, int64>, cost0: int64, ghost done: set<string>)
      returns (ok: bool, sums: map<string, int64>, cost: int64)
    requires id in models && done <= models.Keys && id !in done
    requires forall x | x in done :: ModelFits(isSpace, pools, models[x])
    requires Summed(pools, models, done, sums0, cost0)
    ensures !ok ==> !Acceptable(isSpace, pools, models)
    ensures ok ==> ModelFits(isSpace, pools, models[id]) && Summed(pools, models, done + {id}, sums, cost)
  {
    sums, cost := sums0, cost0;
    ok := ValidateModelCapacity(isSpace, models[id]);
    if !ok { return; }
    ok, sums := AddUses(isSpace, pools, models, id, sums0, done);
    if !ok { return; }
    FittingIsNonNegative(isSpace, pools, models, done, EvictCost);
    TotalNonNegative(models, done, EvictCost);
    if models[id].evictCost > MAX_INT64 - cost {
      OverflowIsUnacceptable(isSpace, pools, models, done, id, EvictCost);
      return false, sums, cost;
    }
    cost := cost + models[id].evictCost;
    forall w ensures Total(models, done + {id}, w) == Total(models, done, w) + Amount(models, id, w) as int {
      TotalPick(models, done + {id}, w, id);
      assert done + {id} - {id} == done;
    }
  }
}
