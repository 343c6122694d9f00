/** The planner's branch-and-bound search over the running models. */
module CapacitySearch {
  import opened Strings
  import opened Collections
  import opened CapacityConfig
  import opened CapacityPlan

  /** The tables the planner fills before it searches. */
  datatype Problem = Problem(
    limits: map<string, int64>,
    models: Models,
    pools: seq<string>,
    candidates: seq<string>,
    usage: seq<seq<int64>>,
    suffix: seq<seq<int64>>,
    need: seq<int64>)
  {
    ghost predicate Valid() {
      && Validated(limits, models) && StrictlySorted(candidates)
      && (forall p | 0 <= p < |pools| :: pools[p] in limits)
      && |need| == |pools| && |usage| == |candidates| && |suffix| == |candidates| + 1
      && (forall i | 0 <= i < |candidates| :: |usage[i]| == |pools|)
      && (forall i, p | 0 <= i < |candidates| && 0 <= p < |pools| ::
            usage[i][p] == Amount(models, candidates[i], Use(pools[p])))
      && (forall i | 0 <= i <= |candidates| :: |suffix[i]| == |pools|)
      && (forall i, p | 0 <= i <= |candidates| && 0 <= p < |pools| ::
            suffix[i][p] as int == Sum(models, candidates[i..], Use(pools[p])))
    }

    /** The victims free what every pool needs. */
    ghost predicate Feasible(victims: seq<string>)
      requires |need| == |pools|
    {
      forall p | 0 <= p < |pools| :: Sum(models, victims, Use(pools[p])) >= need[p] as int
    }

    ghost predicate IsPlan(victims: seq<string>)
      requires |need| == |pools|
    {
      Chosen(victims, candidates) && Feasible(victims)
    }

    /** No way to complete the chosen victims from candidate i on is better than best. */
    ghost predicate Exhausted(i: nat, chosen: seq<string>, best: seq<string>)
      requires i <= |candidates| && |need| == |pools|
    {
      forall w | Chosen(w, candidates[i..]) && Feasible(chosen + w) :: AtLeastAsGood(models, best, chosen + w)
    }
  }

  /** Only the last candidate frees what is needed, and only it costs anything: no prune ever applies. */
  ghost predicate Stubborn(pr: Problem)
    requires pr.Valid()
  {
    exists p :: Needs(pr, p) && OnlyLast(pr, p)
  }

  ghost predicate Needs(pr: Problem, p: nat)
    requires pr.Valid()
  {
    && p < |pr.pools| && pr.need[p] > 0
    && forall q | 0 <= q < |pr.pools| && q != p :: pr.need[q] <= 0
  }

  ghost predicate OnlyLast(pr: Problem, p: nat)
    requires pr.Valid() && p < |pr.pools|
  {
    var n := |pr.candidates| - 1;
    && n >= 0 && Amount(pr.models, pr.candidates[n], Use(pr.pools[p])) >= pr.need[p]
    && Amount(pr.models, pr.candidates[n], EvictCost) > 0
    && forall i | 0 <= i < n ::
         && Amount(pr.models, pr.candidates[i], Use(pr.pools[p])) == 0
         && Amount(pr.models, pr.candidates[i], EvictCost) == 0
  }

  lemma {:induction false} SumOfNothing(models: Models, s: seq<string>, w: Measure)
    requires forall i | 0 <= i < |s| :: Amount(models, s[i], w) == 0
    ensures Sum(models, s, w) == 0
  {
    if s != [] { SumOfNothing(models, s[..|s| - 1], w); }
  }

  lemma {:induction false} SumAtLeast(pr: Problem, s: seq<string>, w: Measure, k: nat)
    requires pr.Valid() && Planned(pr.limits, w) && k < |s|
    ensures Sum(pr.models, s, w) >= Amount(pr.models, s[k], w) as int
  {
    var n := |s| - 1;
    SumNonNegative(pr.limits, pr.models, s[..n], w);
    AmountNonNegative(pr.limits, pr.models, s[n], w);
    if k < n { SumAtLeast(pr, s[..n], w, k); }
  }

  /** Without the last candidate nothing is freed and nothing is paid, and what is left always covers the needs. */
  lemma StubbornBranch(pr: Problem, p: nat, i: nat, chosen: seq<string>)
    requires pr.Valid() && Needs(pr, p) && OnlyLast(pr, p)
    requires i < |pr.candidates| && Chosen(chosen, pr.candidates[..i])
    ensures !pr.Feasible(chosen) && CostOf(pr.models, chosen) == 0
    ensures forall q | 0 <= q < |pr.pools| ::
              Sum(pr.models, chosen, Use(pr.pools[q])) + pr.suffix[i][q] as int >= pr.need[q] as int
  {
    ChosenElements(chosen, pr.candidates[..i]);
    forall k | 0 <= k < |chosen|
      ensures Amount(pr.models, chosen[k], Use(pr.pools[p])) == 0 && Amount(pr.models, chosen[k], EvictCost) == 0
    {
      assert chosen[k] in Elements(chosen);
      var j :| 0 <= j < i && pr.candidates[..i][j] == chosen[k];
    }
    SumOfNothing(pr.models, chosen, Use(pr.pools[p]));
    SumOfNothing(pr.models, chosen, EvictCost);
    forall q | 0 <= q < |pr.pools|
      ensures Sum(pr.models, chosen, Use(pr.pools[q])) + pr.suffix[i][q] as int >= pr.need[q] as int
    {
      ChosenInRange(pr, i, chosen, Use(pr.pools[q]));
      SumAtLeast(pr, pr.candidates[i..], Use(pr.pools[q]), |pr.candidates| - 1 - i);
    }
  }

  /** Every plan pays for the last candidate. */
  lemma StubbornPlanCosts(pr: Problem, p: nat, best: seq<string>)
    requires pr.Valid() && Needs(pr, p) && OnlyLast(pr, p) && pr.IsPlan(best)
    ensures CostOf(pr.models, best) > 0
  {
    var last := pr.candidates[|pr.candidates| - 1];
    assert Sum(pr.models, best, Use(pr.pools[p])) >= pr.need[p] as int;
    ChosenElements(best, pr.candidates);
    if last in best {
      var k :| 0 <= k < |best| && best[k] == last;
      SumAtLeast(pr, best, EvictCost, k);
    } else {
      forall k | 0 <= k < |best| ensures Amount(pr.models, best[k], Use(pr.pools[p])) == 0 {
        assert best[k] in Elements(best);
        var j :| 0 <= j < |pr.candidates| && pr.candidates[j] == best[k];
      }
      SumOfNothing(pr.models, best, Use(pr.pools[p]));
    }
  }

  /** Sums over what is chosen stay in range, alone and with all that is left. */
  lemma ChosenInRange(pr: Problem, i: nat, chosen: seq<string>, w: Measure)
    requires pr.Valid() && i <= |pr.candidates| && Chosen(chosen, pr.candidates[..i])
    requires Planned(pr.limits, w)
    ensures 0 <= Sum(pr.models, chosen, w)
    ensures 0 <= Sum(pr.models, pr.candidates[i..], w)
    ensures Sum(pr.models, chosen, w) + Sum(pr.models, pr.candidates[i..], w) <= MAX_INT64 as int
  {
    var rest := pr.candidates[i..];
    ChosenSelf(rest);
    ChosenConcat(chosen, pr.candidates[..i], rest, rest);
    assert pr.candidates[..i] + rest == pr.candidates;
    ChosenSum(pr.limits, pr.models, chosen + rest, pr.candidates, w);
    SumConcat(pr.models, chosen, rest, w);
    SumNonNegative(pr.limits, pr.models, chosen, w);
    SumNonNegative(pr.limits, pr.models, rest, w);
    StrictIsDistinct(pr.candidates);
    SumInRange(pr.limits, pr.models, pr.candidates, w);
  }

  lemma StrictIsDistinct(s: seq<string>)
    requires StrictlySorted(s)
    ensures Distinct(s)
  {
    forall i, j | 0 <= i < j < |s| ensures s[i] != s[j] {
      LessIrreflexive(s[i]);
    }
  }

  lemma ChoosePlan(pr: Problem, i: nat, chosen: seq<string>)
    requires pr.Valid() && i <= |pr.candidates| && Chosen(chosen, pr.candidates[..i])
    ensures Chosen(chosen, pr.candidates)
  {
    ChosenSelf(pr.candidates[i..]);
    ChosenConcat(chosen, pr.candidates[..i], [], pr.candidates[i..]);
    assert chosen + [] == chosen && pr.candidates[..i] + pr.candidates[i..] == pr.candidates;
  }

  /** Taking or leaving candidate i. */
  lemma ChooseNext(pr: Problem, i: nat, chosen: seq<string>)
    requires pr.Valid() && i < |pr.candidates| && Chosen(chosen, pr.candidates[..i])
    ensures Chosen(chosen, pr.candidates[..i + 1])
    ensures Chosen(chosen + [pr.candidates[i]], pr.candidates[..i + 1])
    ensures forall w :: Sum(pr.models, chosen + [pr.candidates[i]], w)
                        == Sum(pr.models, chosen, w) + Amount(pr.models, pr.candidates[i], w) as int
  {
    var c := [pr.candidates[i]];
    assert pr.candidates[..i + 1] == pr.candidates[..i] + c;
    ChosenSelf(c);
    ChosenConcat(chosen, pr.candidates[..i], c, c);
    ChosenConcat(chosen, pr.candidates[..i], [], c);
    assert chosen + [] == chosen;
    assert (chosen + c)[..|chosen|] == chosen;
  }

  // ----- why no branch that is cut holds a better plan

  lemma CompletionCost(pr: Problem, i: nat, chosen: seq<string>, w: seq<string>)
    requires pr.Valid() && i <= |pr.candidates| && Chosen(w, pr.candidates[i..])
    ensures CostOf(pr.models, chosen + w) >= CostOf(pr.models, chosen)
  {
    SumConcat(pr.models, chosen, w, EvictCost);
    SumNonNegative(pr.limits, pr.models, w, EvictCost);
  }

  /** More victims than already suffice never help. */
  lemma FeasibleEndsBranch(pr: Problem, i: nat, chosen: seq<string>, best: seq<string>)
    requires pr.Valid() && i <= |pr.candidates| && AtLeastAsGood(pr.models, best, chosen)
    ensures pr.Exhausted(i, chosen, best)
  {
    forall w | Chosen(w, pr.candidates[i..]) ensures AtLeastAsGood(pr.models, best, chosen + w) {
      CompletionCost(pr, i, chosen, w);
      if w == [] { assert chosen + w == chosen; }
      BetterTransitive(pr.models, best, chosen, chosen + w);
    }
  }

  /** An infeasible choice that is dearer, or as dear and as long, cannot become better. */
  lemma CostEndsBranch(pr: Problem, i: nat, chosen: seq<string>, best: seq<string>)
    requires pr.Valid() && i <= |pr.candidates| && !pr.Feasible(chosen)
    requires i == |pr.candidates| || CostOf(pr.models, chosen) > CostOf(pr.models, best)
             || (CostOf(pr.models, chosen) == CostOf(pr.models, best) && |chosen| >= |best|)
    ensures pr.Exhausted(i, chosen, best)
  {
    assert chosen + [] == chosen;
    forall w | Chosen(w, pr.candidates[i..]) && pr.Feasible(chosen + w)
      ensures AtLeastAsGood(pr.models, best, chosen + w)
    {
      CompletionCost(pr, i, chosen, w);
    }
  }

  /** When even all that is left frees too little, nothing below is feasible. */
  lemma SupplyEndsBranch(pr: Problem, i: nat, chosen: seq<string>, best: seq<string>, p: nat)
    requires pr.Valid() && i <= |pr.candidates| && p < |pr.pools|
    requires Sum(pr.models, chosen, Use(pr.pools[p])) + pr.suffix[i][p] as int < pr.need[p] as int
    ensures pr.Exhausted(i, chosen, best)
  {
    forall w | Chosen(w, pr.candidates[i..])
      ensures !pr.Feasible(chosen + w)
    {
      SumConcat(pr.models, chosen, w, Use(pr.pools[p]));
      ChosenSum(pr.limits, pr.models, w, pr.candidates[i..], Use(pr.pools[p]));
    }
  }

  /** Taking and leaving a candidate are the only ways on. */
  lemma BranchesExhaust(pr: Problem, i: nat, chosen: seq<string>, middle: seq<string>, best: seq<string>)
    requires pr.Valid() && i < |pr.candidates|
    requires pr.Exhausted(i + 1, chosen + [pr.candidates[i]], middle) && AtLeastAsGood(pr.models, best, middle)
    requires pr.Exhausted(i + 1, chosen, best)
    ensures pr.Exhausted(i, chosen, best)
  {
    var s := pr.candidates[i..];
    assert s[1..] == pr.candidates[i + 1..];
    forall w | Chosen(w, s) && pr.Feasible(chosen + w)
      ensures AtLeastAsGood(pr.models, best, chosen + w)
    {
      if !Chosen(w, s[1..]) && w != [] {
        assert chosen + w == (chosen + [pr.candidates[i]]) + w[1..];
        BetterTransitive(pr.models, best, middle, chosen + w);
      } else {
        ChosenSelf(s[1..]);
      }
    }
  }

  /** The nodes of the full search tree over n candidates. */
  function TreeSize(n: nat): (r: nat)
    ensures r >= 1
  {
    if n == 0 then 1 else 1 + 2 * TreeSize(n - 1)
  }

  class Search {
    const pr: Problem
    const limit: int
    const freed: array<int64>
    var chosen: seq<string>
    var best: seq<string>
    var bestCost: int64
    var searchNodes: int
    var searchLimited: bool

    ghost predicate Valid()
      reads this, freed
    {
      && pr.Valid() && freed.Length == |pr.pools|
      && (forall p | 0 <= p < |pr.pools| :: freed[p] as int == Sum(pr.models, chosen, Use(pr.pools[p])))
      && pr.IsPlan(best) && bestCost as int == CostOf(pr.models, best)
      && 0 <= searchNodes <= limit && (searchLimited ==> searchNodes == limit)
    }

    /** Starts from a plan, with nothing chosen. */
    constructor (pr: Problem, limit: int, seed: seq<string>, seedCost: int64)
      requires pr.Valid() && limit > 0
      requires pr.IsPlan(seed) && seedCost as int == CostOf(pr.models, seed)
      ensures Valid() && fresh(freed) && this.pr == pr && this.limit == limit
      ensures chosen == [] && best == seed && searchNodes == 0 && !searchLimited
    {
      this.pr, this.limit := pr, limit;
      freed := new int64[|pr.pools|](_ => 0);
      chosen, best, bestCost := [], seed, seedCost;
      searchNodes, searchLimited := 0, false;
    }

    /** At most n more nodes were visited, and the search was not cut off where n more fitted the limit. */
    ghost predicate Within(n: nat, nodes: int, limited: bool)
      reads this
    {
      searchNodes <= nodes + n && (searchLimited && !limited ==> nodes + n > limit)
    }

    /** Exactly n more nodes were visited, or as many as the limit allowed. */
    ghost predicate Full(n: nat, nodes: int, limited: bool)
      reads this
    {
      && searchNodes == (if nodes + n > limit then limit else nodes + n)
      && (searchLimited <==> limited || nodes + n > limit)
    }

    method Fits() returns (r: bool)
      requires Valid()
      ensures r <==> pr.Feasible(chosen)
    {
      for p := 0 to |pr.need|
        invariant forall k | 0 <= k < p :: freed[k] >= pr.need[k]
      {
        if freed[p] < pr.need[p] {
          assert Sum(pr.models, chosen, Use(pr.pools[p])) < pr.need[p] as int;
          return false;
        }
      }
      return true;
    }

    /** Whether all that is left from candidate i on could still cover every need. */
    method Coverable(i: nat) returns (r: bool)
      requires Valid() && i <= |pr.candidates| && Chosen(chosen, pr.candidates[..i])
      ensures r <==> forall p | 0 <= p < |pr.pools| ::
                       Sum(pr.models, chosen, Use(pr.pools[p])) + pr.suffix[i][p] as int >= pr.need[p] as int
      ensures !r ==> pr.Exhausted(i, chosen, best)
    {
      for p := 0 to |pr.need|
        invariant forall k | 0 <= k < p ::
                    Sum(pr.models, chosen, Use(pr.pools[k])) + pr.suffix[i][k] as int >= pr.need[k] as int
      {
        ChosenInRange(pr, i, chosen, Use(pr.pools[p]));
        if freed[p] + pr.suffix[i][p] < pr.need[p] {
          SupplyEndsBranch(pr, i, chosen, best, p);
          return false;
        }
      }
      return true;
    }

    /** Puts candidate i among the chosen and counts what it frees. */
    method Push(i: nat)
      requires Valid() && i < |pr.candidates| && Chosen(chosen, pr.candidates[..i])
      modifies this`chosen, freed
      ensures Valid() && chosen == old(chosen) + [pr.candidates[i]]
      ensures Chosen(chosen, pr.candidates[..i + 1])
    {
      ChooseNext(pr, i, chosen);
      forall p | 0 <= p < |pr.pools|
        ensures 0 <= freed[p] as int + pr.usage[i][p] as int <= MAX_INT64 as int
      {
        ChosenInRange(pr, i + 1, chosen + [pr.candidates[i]], Use(pr.pools[p]));
      }
      AddTo(freed, pr.usage[i]);
      chosen := chosen + [pr.candidates[i]];
    }

    /** Takes candidate i back. */
    method Pop(i: nat, ghost before: seq<string>)
      requires Valid() && i < |pr.candidates| && Chosen(before, pr.candidates[..i])
      requires chosen == before + [pr.candidates[i]]
      modifies this`chosen, freed
      ensures Valid() && chosen == before
    {
      ChooseNext(pr, i, before);
      forall p | 0 <= p < |pr.pools|
        ensures 0 <= freed[p] as int - pr.usage[i][p] as int <= MAX_INT64 as int
      {
        ChosenInRange(pr, i, before, Use(pr.pools[p]));
      }
      SubtractFrom(freed, pr.usage[i]);
      chosen := chosen[..|chosen| - 1];
    }

    /** Records the chosen victims when they beat the best plan so far. */
    method Offer(i: nat, cost: int64)
      requires Valid() && i <= |pr.candidates| && Chosen(chosen, pr.candidates[..i])
      requires pr.Feasible(chosen) && cost as int == CostOf(pr.models, chosen)
      modifies this`best, this`bestCost
      ensures Valid()
      ensures AtLeastAsGood(pr.models, best, chosen) && AtLeastAsGood(pr.models, best, old(best))
    {
      ChoosePlan(pr, i, chosen);
      BestIsUnique(pr.models, chosen, best);
      if cost < bestCost
         || (cost == bestCost && (|chosen| < |best| || (|chosen| == |best| && SeqLess(chosen, best)))) {
        best, bestCost := chosen, cost;
      }
    }

    method SearchFrom(i: nat, cost: int64)
      requires Valid() && i <= |pr.candidates| && Chosen(chosen, pr.candidates[..i])
      requires cost as int == CostOf(pr.models, chosen)
      modifies this, freed
      ensures Valid() && chosen == old(chosen)
      ensures AtLeastAsGood(pr.models, best, old(best))
      ensures old(searchLimited) ==> searchLimited
      ensures !searchLimited ==> pr.Exhausted(i, chosen, best)
      ensures Within(TreeSize(|pr.candidates| - i), old(searchNodes), old(searchLimited))
      ensures Stubborn(pr) ==> Full(TreeSize(|pr.candidates| - i), old(searchNodes), old(searchLimited))
      decreases |pr.candidates| - i, 1
    {
      if searchNodes >= limit {
        searchLimited := true;
        return;
      }
      searchNodes := searchNodes + 1;
      StubbornGoesOn(i);
      var fits := Fits();
      if fits {
        Offer(i, cost);
        FeasibleEndsBranch(pr, i, chosen, best);
        return;
      }
      if i == |pr.candidates| || cost > bestCost || (cost == bestCost && |chosen| >= |best|) {
        CostEndsBranch(pr, i, chosen, best);
        return;
      }
      var coverable := Coverable(i);
      if !coverable { return; }
      Branch(i, cost);
    }

    /** In a stubborn problem no prune ends a branch before the last candidate. */
    lemma StubbornGoesOn(i: nat)
      requires Valid() && i <= |pr.candidates| && Chosen(chosen, pr.candidates[..i])
      ensures Stubborn(pr) && i < |pr.candidates| ==>
                && !pr.Feasible(chosen) && CostOf(pr.models, chosen) < bestCost as int
                && forall q | 0 <= q < |pr.pools| ::
                     Sum(pr.models, chosen, Use(pr.pools[q])) + pr.suffix[i][q] as int >= pr.need[q] as int
    {
      if Stubborn(pr) && i < |pr.candidates| {
        var p :| Needs(pr, p) && OnlyLast(pr, p);
        StubbornBranch(pr, p, i, chosen);
        StubbornPlanCosts(pr, p, best);
      }
    }

    /** Searches with candidate i and then without it, undoing the first choice. */
    method Branch(i: nat, cost: int64)
      requires Valid() && i < |pr.candidates| && Chosen(chosen, pr.candidates[..i])
      requires cost as int == CostOf(pr.models, chosen)
      modifies this, freed
      ensures Valid() && chosen == old(chosen)
      ensures AtLeastAsGood(pr.models, best, old(best))
      ensures old(searchLimited) ==> searchLimited
      ensures !searchLimited ==> pr.Exhausted(i, chosen, best)
      ensures Within(2 * TreeSize(|pr.candidates| - i - 1), old(searchNodes), old(searchLimited))
      ensures Stubborn(pr) ==> Full(2 * TreeSize(|pr.candidates| - i - 1), old(searchNodes), old(searchLimited))
      decreases |pr.candidates| - i, 0
    {
      ChooseNext(pr, i, chosen);
      ChosenInRange(pr, i + 1, chosen + [pr.candidates[i]], EvictCost);
      Push(i);
      SearchFrom(i + 1, cost + Amount(pr.models, pr.candidates[i], EvictCost));
      ghost var middle := best;
      Pop(i, old(chosen));
      SearchFrom(i + 1, cost);
      BetterTransitive(pr.models, best, middle, old(best));
      if !searchLimited {
        BranchesExhaust(pr, i, chosen, middle, best);
      }
    }
  }

  method AddTo(a: array<int64>, row: seq<int64>)
    requires |row| == a.Length
    requires forall k | 0 <= k < a.Length :: 0 <= a[k] as int + row[k] as int <= MAX_INT64 as int
    modifies a
    ensures forall k | 0 <= k < a.Length :: a[k] as int == old(a[k]) as int + row[k] as int
  {
    for p := 0 to |row|
      invariant forall k | 0 <= k < p :: a[k] as int == old(a[k]) as int + row[k] as int
      invariant forall k | p <= k < a.Length :: a[k] == old(a[k])
    {
      a[p] := a[p] + row[p];
    }
  }

  method SubtractFrom(a: array<int64>, row: seq<int64>)
    requires |row| == a.Length
    requires forall k | 0 <= k < a.Length :: 0 <= a[k] as int - row[k] as int <= MAX_INT64 as int
    modifies a
    ensures forall k | 0 <= k < a.Length :: a[k] as int == old(a[k]) as int - row[k] as int
  {
    for p := 0 to |row|
      invariant forall k | 0 <= k < p :: a[k] as int == old(a[k]) as int - row[k] as int
      invariant forall k | p <= k < a.Length :: a[k] == old(a[k])
    {
      a[p] := a[p] - row[p];
    }
  }
}
