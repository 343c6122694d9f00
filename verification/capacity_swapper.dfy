/** The capacity router's eviction planner. */
module CapacitySwapper {
  import opened Strings
  import opened Collections
  import opened CapacityConfig
  import opened CapacityPlan
  import opened CapacitySearch
  import opened CapacityPlanner
  import opened CapacityPromise
  import opened CapacityGreedy

  /** Position i of the list stands behind what was picked before it. */
  lemma {:induction false} PickedAt(s: seq<string>, selected: seq<bool>, j: nat) returns (i: nat)
    requires |selected| == |s| && j < |Pick(s, selected)|
    ensures i < |s| && selected[i] && Pick(s, selected[i := false]) == RemoveAt(Pick(s, selected), j)
  {
    var n := |s| - 1;
    var front := Pick(s[..n], selected[..n]);
    if j < |front| {
      i := PickedAt(s[..n], selected[..n], j);
      assert selected[i := false][..n] == selected[..n][i := false];
    } else {
      i := n;
      assert selected[i := false][..n] == selected[..n];
    }
  }

  /** The greedy seed wastes nothing: none of its victims could be kept. */
  lemma SeedIsIrredundant(pr: Problem)
    requires pr.Valid()
    ensures Irredundant(pr, GreedySeed(pr))
  {
    var order := CostOrder(EvictCosts(pr));
    var r := Greedy(pr, order, AllSelected(pr));
    forall j | 0 <= j < |GreedySeed(pr)| ensures !pr.Feasible(RemoveAt(GreedySeed(pr), j)) {
      var i := PickedAt(pr.candidates, r, j);
      GreedyNeeds(pr, order, AllSelected(pr), i);
    }
  }

  /** The selected candidates and what evicting them costs. */
  method Collect(pr: Problem, selected: seq<bool>) returns (best: seq<string>, bestCost: int64)
    requires pr.Valid() && |selected| == |pr.candidates|
    ensures best == Pick(pr.candidates, selected) && bestCost as int == CostOf(pr.models, best)
  {
    best, bestCost := [], 0;
    for i := 0 to |pr.candidates|
      invariant Collected(pr, selected, i, best, bestCost)
    {
      CollectNext(pr, selected, i, best, bestCost);
      if selected[i] {
        best, bestCost := best + [pr.candidates[i]], bestCost + Amount(pr.models, pr.candidates[i], EvictCost);
      }
    }
    assert pr.candidates[..|pr.candidates|] == pr.candidates && selected[..|selected|] == selected;
  }

  ghost predicate Collected(pr: Problem, selected: seq<bool>, i: nat, best: seq<string>, bestCost: int64) {
    && i <= |pr.candidates| == |selected|
    && best == Pick(pr.candidates[..i], selected[..i]) && bestCost as int == CostOf(pr.models, best)
  }

  lemma CollectNext(pr: Problem, selected: seq<bool>, i: nat, best: seq<string>, bestCost: int64)
    requires pr.Valid() && i < |pr.candidates| && Collected(pr, selected, i, best, bestCost)
    ensures !selected[i] ==> Collected(pr, selected, i + 1, best, bestCost)
    ensures var cost := bestCost as int + Amount(pr.models, pr.candidates[i], EvictCost) as int;
            selected[i] ==>
              0 <= cost <= MAX_INT64 as int && Collected(pr, selected, i + 1, best + [pr.candidates[i]], cost as int64)
  {
    assert pr.candidates[..i + 1][..i] == pr.candidates[..i] && selected[..i + 1][..i] == selected[..i];
    PickIsChosen(pr.candidates[..i], selected[..i]);
    ChooseNext(pr, i, best);
    ChosenInRange(pr, i + 1, best + [pr.candidates[i]], EvictCost);
  }

  // ----- the clean-up after a limited search

  function RemoveAt(s: seq<string>, i: nat): seq<string>
    requires i < |s|
  {
    s[..i] + s[i + 1..]
  }

  /** Every victim is needed. */
  ghost predicate Irredundant(pr: Problem, victims: seq<string>)
    requires pr.Valid()
  {
    forall i | 0 <= i < |victims| :: !pr.Feasible(RemoveAt(victims, i))
  }

  lemma SumWithout(pr: Problem, s: seq<string>, i: nat, w: Measure)
    requires pr.Valid() && i < |s|
    ensures Sum(pr.models, RemoveAt(s, i), w) == Sum(pr.models, s, w) - Amount(pr.models, s[i], w) as int
  {
    assert s == s[..i] + ([s[i]] + s[i + 1..]);
    SumConcat(pr.models, s[..i], [s[i]] + s[i + 1..], w);
    SumConcat(pr.models, [s[i]], s[i + 1..], w);
    SumConcat(pr.models, s[..i], s[i + 1..], w);
    SumFront(pr.models, [s[i]], w);
  }

  lemma {:induction false} RemoveIsChosen(w: seq<string>, i: nat, s: seq<string>)
    requires Chosen(w, s) && i < |w|
    ensures Chosen(RemoveAt(w, i), s)
  {
    if Chosen(w, s[1..]) {
      RemoveIsChosen(w, i, s[1..]);
    } else if i == 0 {
      assert RemoveAt(w, 0) == w[1..];
    } else {
      RemoveIsChosen(w[1..], i - 1, s[1..]);
      assert RemoveAt(w, i)[1..] == RemoveAt(w[1..], i - 1);
    }
  }

  /** A victim that was needed stays needed when other victims are kept running. */
  lemma StillNeeded(pr: Problem, s: seq<string>, i: nat, j: nat)
    requires pr.Valid() && i < j < |s| && !pr.Feasible(RemoveAt(s, j))
    ensures !pr.Feasible(RemoveAt(RemoveAt(s, i), j - 1))
  {
    var t := RemoveAt(s, i);
    assert t[j - 1] == s[j];
    forall w | Planned(pr.limits, w)
      ensures Sum(pr.models, RemoveAt(t, j - 1), w) <= Sum(pr.models, RemoveAt(s, j), w)
    {
      SumWithout(pr, s, i, w);
      SumWithout(pr, t, j - 1, w);
      SumWithout(pr, s, j, w);
      AmountNonNegative(pr.limits, pr.models, s[i], w);
    }
    var p :| 0 <= p < |pr.pools| && Sum(pr.models, RemoveAt(s, j), Use(pr.pools[p])) < pr.need[p] as int;
    assert Sum(pr.models, RemoveAt(t, j - 1), Use(pr.pools[p])) < pr.need[p] as int;
  }

  /** What a list of victims frees, pool by pool. */
  method FreedBy(pr: Problem, victims: seq<string>) returns (freed: array<int64>)
    requires pr.Valid() && pr.IsPlan(victims)
    ensures fresh(freed) && Holds(pr, freed, victims)
  {
    freed := new int64[|pr.pools|](_ => 0);
    for i := 0 to |victims|
      invariant fresh(freed) && Holds(pr, freed, victims[..i])
    {
      assert victims[..i + 1][..i] == victims[..i];
      forall p | 0 <= p < |pr.pools|
        ensures 0 <= freed[p] as int + Row(pr.models, victims[i], pr.pools)[p] as int <= MAX_INT64 as int
      {
        PlanPrefixInRange(pr, victims, i + 1, Use(pr.pools[p]));
      }
      AddTo(freed, Row(pr.models, victims[i], pr.pools));
    }
    assert victims[..|victims|] == victims;
  }

  lemma PlanPrefixInRange(pr: Problem, victims: seq<string>, k: nat, w: Measure)
    requires pr.Valid() && Chosen(victims, pr.candidates) && k <= |victims| && Planned(pr.limits, w)
    ensures 0 <= Sum(pr.models, victims[..k], w) <= MAX_INT64 as int
  {
    StrictIsDistinct(pr.candidates);
    ChosenElements(victims, pr.candidates);
    SumInRange(pr.limits, pr.models, victims[..k], w);
  }

  /** Keeps each victim running that the others make unnecessary, last first. */
  method CleanUp(pr: Problem, plan: seq<string>) returns (best: seq<string>)
    requires pr.Valid() && pr.IsPlan(plan)
    ensures pr.IsPlan(best) && Irredundant(pr, best)
    ensures AtLeastAsGood(pr.models, best, plan)
  {
    var freed := FreedBy(pr, plan);
    best := plan;
    var i := |best|;
    while i > 0
      invariant 0 <= i <= |best| && pr.IsPlan(best) && Holds(pr, freed, best) && fresh(freed)
      invariant AtLeastAsGood(pr.models, best, plan)
      invariant forall j | i <= j < |best| :: !pr.Feasible(RemoveAt(best, j))
    {
      i := i - 1;
      ghost var before := best;
      best := TryRemove(pr, best, i, freed);
      BetterTransitive(pr.models, best, before, plan);
    }
  }

  method TryRemove(pr: Problem, before: seq<string>, i: nat, freed: array<int64>) returns (best: seq<string>)
    requires pr.Valid() && pr.IsPlan(before) && i < |before| && Holds(pr, freed, before)
    requires forall j | i < j < |before| :: !pr.Feasible(RemoveAt(before, j))
    modifies freed
    ensures pr.IsPlan(best) && i <= |best| && Holds(pr, freed, best)
    ensures AtLeastAsGood(pr.models, best, before)
    ensures forall j | i <= j < |best| :: !pr.Feasible(RemoveAt(best, j))
  {
    var row := Row(pr.models, before[i], pr.pools);
    ghost var rest := RemoveAt(before, i);
    RemoveIsChosen(before, i, pr.candidates);
    forall p | 0 <= p < |pr.pools|
      ensures 0 <= Sum(pr.models, rest, Use(pr.pools[p])) == freed[p] as int - row[p] as int <= MAX_INT64 as int
    {
      RestInRange(pr, before, i, Use(pr.pools[p]));
    }
    SubtractFrom(freed, row);
    assert Holds(pr, freed, rest);
    var fits := FitsAll(freed, pr.need);
    assert fits <==> pr.Feasible(rest);
    if fits {
      RestIsClean(pr, before, i);
      best := RemoveAt(before, i);
    } else {
      AddTo(freed, row);
      best := before;
    }
  }

  lemma RestInRange(pr: Problem, before: seq<string>, i: nat, w: Measure)
    requires pr.Valid() && Chosen(before, pr.candidates) && i < |before| && Planned(pr.limits, w)
    requires Chosen(RemoveAt(before, i), pr.candidates)
    ensures 0 <= Sum(pr.models, RemoveAt(before, i), w)
              == Sum(pr.models, before, w) - Amount(pr.models, before[i], w) as int <= MAX_INT64 as int
  {
    var rest := RemoveAt(before, i);
    SumWithout(pr, before, i, w);
    PlanPrefixInRange(pr, rest, |rest|, w);
    assert rest[..|rest|] == rest;
  }

  lemma RestIsClean(pr: Problem, before: seq<string>, i: nat)
    requires pr.Valid() && i < |before|
    requires forall j | i < j < |before| :: !pr.Feasible(RemoveAt(before, j))
    ensures Better(pr.models, RemoveAt(before, i), before)
    ensures forall j | i <= j < |RemoveAt(before, i)| :: !pr.Feasible(RemoveAt(RemoveAt(before, i), j))
  {
    SumWithout(pr, before, i, EvictCost);
    AmountNonNegative(pr.limits, pr.models, before[i], EvictCost);
    forall j | i <= j < |RemoveAt(before, i)| ensures !pr.Feasible(RemoveAt(RemoveAt(before, i), j)) {
      StillNeeded(pr, before, i, j + 1);
    }
  }

  // ----- the decision

  /** No feasible plan is better, so none of its victims can be spared. */
  lemma OptimalIsIrredundant(pr: Problem, best: seq<string>)
    requires pr.Valid() && pr.IsPlan(best) && pr.Exhausted(0, [], best)
    ensures Irredundant(pr, best)
  {
    forall i | 0 <= i < |best| ensures !pr.Feasible(RemoveAt(best, i)) {
      var rest := RemoveAt(best, i);
      RemoveIsChosen(best, i, pr.candidates);
      SumWithout(pr, best, i, EvictCost);
      AmountNonNegative(pr.limits, pr.models, best[i], EvictCost);
      BestIsUnique(pr.models, rest, best);
      assert pr.candidates[0..] == pr.candidates && [] + rest == rest;
    }
  }

  /** Evicting all candidates makes room for the target. */
  lemma EveryoneSuffices(pr: Problem, target: string, running: seq<string>)
    requires Poses(pr, target, running)
    ensures pr.Feasible(pr.candidates)
  {
    forall p | 0 <= p < |pr.pools| ensures Sum(pr.models, pr.candidates, Use(pr.pools[p])) >= pr.need[p] as int {
      assert pr.pools[p] in pr.limits;
    }
  }

  /** A victim list that makes room for the target and wastes nothing; the best one unless the search was limited. */
  ghost predicate Decides(pr: Problem, target: string, running: seq<string>, evict: seq<string>, limited: bool)
    requires Poses(pr, target, running)
  {
    && Eligible(target, running, evict)
    && FitsAfter(pr.limits, pr.models, target, running, Elements(evict))
    && (forall id | id in evict :: !FitsAfter(pr.limits, pr.models, target, running, Elements(evict) - {id}))
    && AtLeastAsGood(pr.models, evict, GreedySeed(pr))
    && (!limited ==>
          forall v | Eligible(target, running, v) && FitsAfter(pr.limits, pr.models, target, running, Elements(v)) ::
            AtLeastAsGood(pr.models, evict, v))
  }

  lemma PlanDecides(pr: Problem, target: string, running: seq<string>, evict: seq<string>, limited: bool)
    requires Poses(pr, target, running) && pr.IsPlan(evict) && Irredundant(pr, evict)
    requires AtLeastAsGood(pr.models, evict, GreedySeed(pr))
    requires !limited ==> pr.Exhausted(0, [], evict)
    ensures Decides(pr, target, running, evict, limited)
  {
    PlanIsEligible(pr, target, running, evict);
    FeasibleIffFits(pr, target, running, evict);
    forall id | id in evict ensures !FitsAfter(pr.limits, pr.models, target, running, Elements(evict) - {id}) {
      var i :| 0 <= i < |evict| && evict[i] == id;
      SparedVictim(pr, target, running, evict, i);
    }
    if !limited {
      forall v | Eligible(target, running, v) && FitsAfter(pr.limits, pr.models, target, running, Elements(v))
        ensures AtLeastAsGood(pr.models, evict, v)
      {
        ExhaustedBeats(pr, target, running, evict, v);
      }
    }
  }

  lemma ExhaustedBeats(pr: Problem, target: string, running: seq<string>, evict: seq<string>, v: seq<string>)
    requires Poses(pr, target, running) && pr.Exhausted(0, [], evict)
    requires Eligible(target, running, v) && FitsAfter(pr.limits, pr.models, target, running, Elements(v))
    ensures AtLeastAsGood(pr.models, evict, v)
  {
    EligibleIsPlan(pr, target, running, v);
    assert pr.candidates[0..] == pr.candidates && [] + v == v;
  }

  lemma EligibleIsPlan(pr: Problem, target: string, running: seq<string>, v: seq<string>)
    requires Poses(pr, target, running) && Eligible(target, running, v)
    ensures Chosen(v, pr.candidates)
    ensures pr.Feasible(v) <==> FitsAfter(pr.limits, pr.models, target, running, Elements(v))
  {
    DroppedElements(SortedDistinct(running), target);
    SortedIsChosen(v, pr.candidates);
    StrictIsDistinct(v);
    FeasibleIffFits(pr, target, running, v);
  }

  lemma SparedVictim(pr: Problem, target: string, running: seq<string>, evict: seq<string>, i: nat)
    requires Poses(pr, target, running) && Chosen(evict, pr.candidates) && i < |evict|
    requires !pr.Feasible(RemoveAt(evict, i))
    ensures !FitsAfter(pr.limits, pr.models, target, running, Elements(evict) - {evict[i]})
  {
    var rest := RemoveAt(evict, i);
    PlanIsEligible(pr, target, running, evict);
    RemoveIsChosen(evict, i, pr.candidates);
    PlanIsEligible(pr, target, running, rest);
    FeasibleIffFits(pr, target, running, rest);
    RemovedElements(evict, i);
  }

  lemma RemovedElements(s: seq<string>, i: nat)
    requires Distinct(s) && i < |s|
    ensures Elements(RemoveAt(s, i)) == Elements(s) - {s[i]}
  {
    forall x ensures x in Elements(RemoveAt(s, i)) <==> x in Elements(s) - {s[i]} {
      if x in Elements(s) && x != s[i] {
        var k :| 0 <= k < |s| && s[k] == x;
        assert x == RemoveAt(s, i)[if k < i then k else k - 1];
      }
      if x in RemoveAt(s, i) {
        var k :| 0 <= k < |s| - 1 && RemoveAt(s, i)[k] == x;
        assert x == s[if k < i then k else k + 1];
      }
    }
  }

  /** A decision keeps what is promised in terms of the configuration. */
  lemma DecisionIsPromised(pr: Problem, target: string, running: seq<string>, evict: seq<string>, limited: bool)
    requires Poses(pr, target, running) && Decides(pr, target, running, evict, limited)
    ensures Promised(pr.limits, pr.models, target, running, evict, limited)
  {
    VictimListIsEligible(target, running, evict);
    forall gone
      ensures MakesRoom(pr.limits, pr.models, target, running, gone)
              <==> FitsAfter(pr.limits, pr.models, target, running, gone)
    {
      RoomIsFits(pr.limits, pr.models, target, running, gone);
    }
    SeedKeepsDearest(pr, target, running);
    PreferredIsBetter(pr.models, evict, GreedySeed(pr));
    forall v | !limited && VictimList(target, running, v)
               && MakesRoom(pr.limits, pr.models, target, running, Elements(v))
      ensures evict == v || Preferred(pr.models, evict, v)
    {
      VictimListIsEligible(target, running, v);
      PreferredIsBetter(pr.models, evict, v);
    }
  }

  lemma PlanIsPromised(pr: Problem, target: string, running: seq<string>, evict: seq<string>, limited: bool)
    requires Poses(pr, target, running) && pr.IsPlan(evict) && Irredundant(pr, evict)
    requires AtLeastAsGood(pr.models, evict, GreedySeed(pr))
    requires !limited ==> pr.Exhausted(0, [], evict)
    ensures Decides(pr, target, running, evict, limited)
    ensures Promised(pr.limits, pr.models, target, running, evict, limited)
  {
    PlanDecides(pr, target, running, evict, limited);
    DecisionIsPromised(pr, target, running, evict, limited);
  }

  /** Where the target fits beside all running models, evicting nobody is what is promised. */
  lemma NobodyIsPromised(pr: Problem, target: string, running: seq<string>)
    requires Poses(pr, target, running) && pr.Feasible([])
    ensures Decides(pr, target, running, [], false)
    ensures Promised(pr.limits, pr.models, target, running, [], false)
  {
    ChosenSelf(pr.candidates);
    SumNonNegative(pr.limits, pr.models, GreedySeed(pr), EvictCost);
    FeasibleEndsBranch(pr, 0, [], []);
    PlanIsPromised(pr, target, running, [], false);
  }

  class Swapper {
    const limits: map<string, int64>
    const models: Models
    var searchLimit: int
    var searchNodes: int
    var searchLimited: bool

    constructor (limits: map<string, int64>, models: Models)
      ensures this.limits == limits && this.models == models && searchLimit == 0
    {
      this.limits, this.models := limits, models;
      searchLimit, searchNodes, searchLimited := 0, 0, false;
    }

    function NodeBudget(): (n: int)
      reads this
      ensures n > 0
    {
      if searchLimit <= 0 then DEFAULT_NODE_BUDGET else searchLimit
    }

    /** evictionFor: plans evictions for a list of running models, repetitions allowed. */
    method EvictionFor(target: string, running: seq<string>) returns (evict: seq<string>, ghost pr: Problem)
      requires Validated(limits, models)
      modifies this`searchNodes, this`searchLimited
      ensures pr.limits == limits && pr.models == models && Poses(pr, target, running)
      ensures Decides(pr, target, running, evict, searchLimited)
      ensures Promised(limits, models, target, running, evict, searchLimited)
      ensures 0 <= searchNodes <= NodeBudget()
      ensures searchLimited ==> searchNodes == NodeBudget() < TreeSize(|pr.candidates|)
      ensures searchLimited ==> searchNodes == if searchLimit > 0 then searchLimit else 100000
      ensures Stubborn(pr) ==> (searchLimited <==> NodeBudget() < TreeSize(|pr.candidates|))
    {
      searchNodes, searchLimited := 0, false;
      var problem := Pose(limits, models, target, running);
      pr := problem;
      EveryoneSuffices(problem, target, running);
      var none := new int64[|problem.pools|](_ => 0);
      var fits := FitsAll(none, problem.need);
      assert fits <==> pr.Feasible([]);
      if fits {
        evict := [];
        NobodyIsPromised(pr, target, running);
        return;
      }
      var seed, seedCost := SeedPlan(problem);
      evict := SearchPlan(problem, seed, seedCost);
      PlanIsPromised(pr, target, running, evict, searchLimited);
    }

    method SearchPlan(pr: Problem, seed: seq<string>, seedCost: int64) returns (evict: seq<string>)
      requires pr.Valid() && pr.IsPlan(seed) && seedCost as int == CostOf(pr.models, seed)
      modifies this`searchNodes, this`searchLimited
      ensures pr.IsPlan(evict) && Irredundant(pr, evict)
      ensures AtLeastAsGood(pr.models, evict, seed)
      ensures !searchLimited ==> pr.Exhausted(0, [], evict)
      ensures 0 <= searchNodes <= NodeBudget()
      ensures searchLimited ==> searchNodes == NodeBudget() < TreeSize(|pr.candidates|)
      ensures Stubborn(pr) ==> (searchLimited <==> NodeBudget() < TreeSize(|pr.candidates|))
    {
      var search := new Search(pr, NodeBudget(), seed, seedCost);
      search.SearchFrom(0, 0);
      searchNodes, searchLimited := search.searchNodes, search.searchLimited;
      evict := search.best;
      if searchLimited {
        evict := CleanUp(pr, evict);
        BetterTransitive(pr.models, evict, search.best, seed);
      } else {
        OptimalIsIrredundant(pr, evict);
      }
    }
  }

  /** The full tree over n candidates fits the default budget exactly up to fifteen candidates. */
  lemma BudgetCoversFifteen(n: nat)
    ensures TreeSize(n) <= DEFAULT_NODE_BUDGET <==> n <= 15
  {
    assert TreeSize(15) == 65535;
    assert TreeSize(16) == 131071;
    TreeSizeGrows(n, 15);
    TreeSizeGrows(16, n);
  }

  lemma {:induction false} TreeSizeGrows(m: nat, n: nat)
    ensures m <= n ==> TreeSize(m) <= TreeSize(n)
  {
    if 0 < m <= n { TreeSizeGrows(m - 1, n - 1); }
  }

  method SeedPlan(pr: Problem) returns (seed: seq<string>, seedCost: int64)
    requires pr.Valid() && pr.Feasible(pr.candidates)
    ensures seed == GreedySeed(pr) && pr.IsPlan(seed) && seedCost as int == CostOf(pr.models, seed)
  {
    var selected := Seed(pr);
    PickIsChosen(pr.candidates, selected);
    seed, seedCost := Collect(pr, selected);
  }
}
