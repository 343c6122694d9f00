/** Running models that leave the planner no prune, for any number of them: only the last one frees anything or costs
    anything, so every other choice has to be tried. */
module CapacityWorst {
  import opened Strings
  import opened Collections
  import opened CapacityConfig
  import opened CapacityPlan
  import opened CapacitySearch
  import opened CapacityPlanner
  import opened CapacitySwapper

  const POOL := "gpu"
  const TARGET := "b"

  /** "a", "aa", "aaa", ... in order. */
  function Id(k: nat): string {
    seq(k + 1, _ => 'a')
  }

  function Ids(n: nat): (ids: seq<string>)
    ensures |ids| == n
  {
    seq(n, k requires 0 <= k < n => Id(k))
  }

  lemma {:induction false} LongerIsLater(j: nat, k: nat)
    requires j < k
    ensures Less(Id(j), Id(k))
    decreases j
  {
    if j > 0 {
      assert Id(j)[1..] == Id(j - 1) && Id(k)[1..] == Id(k - 1);
      LongerIsLater(j - 1, k - 1);
    } else {
      assert Id(j)[1..] == [];
    }
  }

  lemma IdsAreSorted(n: nat)
    ensures StrictlySorted(Ids(n)) && TARGET !in Ids(n)
  {
    forall j, k | 0 <= j < k < n ensures Less(Ids(n)[j], Ids(n)[k]) { LongerIsLater(j, k); }
    forall k | 0 <= k < n ensures Ids(n)[k] != TARGET { assert Id(k)[0] == 'a'; }
  }

  /** The target and the last model need the whole pool; only the last model costs anything. */
  function Config(n: nat): Models
    requires n > 0
  {
    map id | id in Ids(n) + [TARGET] ::
      if id == TARGET then ModelConfig(map[POOL := 1], 0)
      else if id == Id(n - 1) then ModelConfig(map[POOL := 1], 1)
      else ModelConfig(map[], 0)
  }

  const LIMITS: map<string, int64> := map[POOL := 1]

  lemma ConfigAmounts(n: nat, k: nat, w: Measure)
    requires k < n
    ensures Amount(Config(n), Id(k), w) ==
            if k == n - 1 && (w == Use(POOL) || w == EvictCost) then 1 else 0
    ensures Amount(Config(n), TARGET, w) == if w == Use(POOL) then 1 else 0
  {
    assert Ids(n)[k] == Id(k);
    assert |Id(k)| == k + 1 && |Id(n - 1)| == n && Id(k)[0] == 'a';
  }

  /** Together the models use the pool twice over and cost one. */
  lemma ConfigTotals(n: nat, w: Measure)
    requires n > 0
    ensures Sum(Config(n), Ids(n), w) == if w == Use(POOL) || w == EvictCost then 1 else 0
    ensures Sum(Config(n), Ids(n) + [TARGET], w) <= 2
  {
    var ids := Ids(n);
    OthersUseNothing(n, w);
    ConfigAmounts(n, n - 1, w);
    assert (ids + [TARGET])[..n] == ids;
  }

  lemma OthersUseNothing(n: nat, w: Measure)
    requires n > 0
    ensures Sum(Config(n), Ids(n)[..n - 1], w) == 0
  {
    forall k | 0 <= k < n - 1 ensures Amount(Config(n), Ids(n)[k], w) == 0 { ConfigAmounts(n, k, w); }
    SumOfNothing(Config(n), Ids(n)[..n - 1], w);
  }

  lemma AmountIsSmall(n: nat, id: string, w: Measure)
    requires n > 0
    ensures 0 <= Amount(Config(n), id, w) <= 1
  {
    if id in Ids(n) {
      var k :| 0 <= k < n && Ids(n)[k] == id;
      ConfigAmounts(n, k, w);
    } else {
      ConfigAmounts(n, 0, w);
    }
  }

  lemma ConfigIsValidated(n: nat)
    requires n > 0
    ensures Validated(LIMITS, Config(n))
  {
    var models, ids := Config(n), Ids(n) + [TARGET];
    IdsAreSorted(n);
    StrictIsDistinct(Ids(n));
    assert Distinct(ids);
    assert models.Keys == Elements(ids);
    forall w ensures Total(models, models.Keys, w) <= 2 {
      SumIsTotal(models, ids, w);
      ConfigTotals(n, w);
    }
    forall id, w ensures 0 <= Amount(models, id, w) <= 1 { AmountIsSmall(n, id, w); }
  }

  /** For every number of running models there are some, with a validated configuration, that leave the planner no
      prune; EvictionFor then cuts its search off exactly if the budget is below the full tree. */
  lemma StubbornModels(n: nat, pr: Problem)
    requires n > 0 && Poses(pr, TARGET, Ids(n)) && pr.limits == LIMITS && pr.models == Config(n)
    ensures Validated(LIMITS, Config(n)) && |pr.candidates| == n && Stubborn(pr)
  {
    ConfigIsValidated(n);
    CandidatesAreIds(n);
    OnePool(pr.pools);
    ConfigTotals(n, Use(POOL));
    ConfigAmounts(n, 0, Use(POOL));
    assert Needs(pr, 0);
    LastAlone(n, pr);
  }

  /** On these models the default budget suffices exactly up to fifteen of them. */
  lemma DefaultBudgetCuts(n: nat, pr: Problem)
    requires n > 0 && Poses(pr, TARGET, Ids(n)) && pr.limits == LIMITS && pr.models == Config(n)
    ensures Validated(LIMITS, Config(n)) && Stubborn(pr)
    ensures DEFAULT_NODE_BUDGET < TreeSize(|pr.candidates|) <==> n > 15
  {
    StubbornModels(n, pr);
    BudgetCoversFifteen(n);
  }

  lemma LastAlone(n: nat, pr: Problem)
    requires n > 0 && pr.Valid() && pr.models == Config(n) && pr.candidates == Ids(n) && pr.pools == [POOL]
    requires pr.need[0] == 1
    ensures OnlyLast(pr, 0)
  {
    forall i | 0 <= i < n
      ensures Amount(pr.models, pr.candidates[i], Use(POOL)) == if i == n - 1 then 1 else 0
      ensures Amount(pr.models, pr.candidates[i], EvictCost) == if i == n - 1 then 1 else 0
    {
      ConfigAmounts(n, i, Use(POOL));
      ConfigAmounts(n, i, EvictCost);
    }
  }

  lemma OnePool(pools: seq<string>)
    requires StrictlySorted(pools) && Elements(pools) == {POOL}
    ensures pools == [POOL]
  {
    assert POOL in Elements(pools);
    assert |pools| <= 1 || Less(pools[0], pools[1]);
    forall q | 0 <= q < |pools| ensures pools[q] == POOL { assert pools[q] in Elements(pools); }
    LessIrreflexive(POOL);
  }

  lemma CandidatesAreIds(n: nat)
    ensures Candidates(TARGET, Ids(n)) == Ids(n)
  {
    IdsAreSorted(n);
    SortedUnique(SortedDistinct(Ids(n)), Ids(n));
    DroppedElements(Ids(n), TARGET);
    SortedUnique(Dropped(Ids(n), TARGET), Ids(n));
  }
}
