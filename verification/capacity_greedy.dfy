/** The greedy seed of the eviction planner: everyone evicted, then the dearest kept running wherever possible. */
module CapacityGreedy {
  import opened Strings
  import opened Collections
  import opened CapacityConfig
  import opened CapacityPlan
  import opened CapacitySearch
  import opened CapacityPlanner
  import opened CapacityPromise

  /** Visiting positions in order, each candidate is kept running if the rest still frees enough. */
  ghost function Greedy(pr: Problem, order: seq<nat>, selected: seq<bool>): (r: seq<bool>)
    requires pr.Valid() && |selected| == |pr.candidates|
    requires forall k | 0 <= k < |order| :: order[k] < |selected|
    ensures |r| == |selected|
  {
    if order == [] then selected
    else
      var without := selected[order[0] := false];
      Greedy(pr, order[1..], if pr.Feasible(Pick(pr.candidates, without)) then without else selected)
  }

  function EvictCosts(pr: Problem): (r: seq<int64>)
    ensures |r| == |pr.candidates|
  {
    seq(|pr.candidates|, i requires 0 <= i < |pr.candidates| => Amount(pr.models, pr.candidates[i], EvictCost))
  }

  ghost function AllSelected(pr: Problem): (s: seq<bool>)
    ensures |s| == |pr.candidates|
  {
    seq(|pr.candidates|, _ => true)
  }

  /** Everyone evicted, then the dearest kept first. */
  ghost function GreedySeed(pr: Problem): seq<string>
    requires pr.Valid()
  {
    Pick(pr.candidates, Greedy(pr, CostOrder(EvictCosts(pr)), AllSelected(pr)))
  }

  lemma {:induction false} PickLess(s: seq<string>, fewer: seq<bool>, more: seq<bool>)
    requires |fewer| == |more| == |s| && forall i | 0 <= i < |s| && fewer[i] :: more[i]
    ensures Chosen(Pick(s, fewer), Pick(s, more))
  {
    if s != [] {
      var n := |s| - 1;
      PickLess(s[..n], fewer[..n], more[..n]);
      ChosenSelf([s[n]]);
      ChosenConcat(Pick(s[..n], fewer[..n]), Pick(s[..n], more[..n]),
                   if fewer[n] then [s[n]] else [], if more[n] then [s[n]] else []);
    }
  }

  /** Evicting more frees at least as much. */
  lemma MoreFrees(pr: Problem, fewer: seq<bool>, more: seq<bool>)
    requires pr.Valid() && |fewer| == |more| == |pr.candidates|
    requires (forall i | 0 <= i < |fewer| && fewer[i] :: more[i]) && pr.Feasible(Pick(pr.candidates, fewer))
    ensures pr.Feasible(Pick(pr.candidates, more))
  {
    PickLess(pr.candidates, fewer, more);
    forall p | 0 <= p < |pr.pools|
      ensures Sum(pr.models, Pick(pr.candidates, more), Use(pr.pools[p])) >= pr.need[p] as int
    {
      ChosenSum(pr.limits, pr.models, Pick(pr.candidates, fewer), Pick(pr.candidates, more), Use(pr.pools[p]));
    }
  }

  /** The greedy pass only ever spares candidates, and each one it has visited and not spared is needed in the end. */
  lemma {:induction false} GreedyNeeds(pr: Problem, order: seq<nat>, selected: seq<bool>, i: nat)
    requires pr.Valid() && |selected| == |pr.candidates|
    requires forall k | 0 <= k < |order| :: order[k] < |selected|
    ensures forall k | 0 <= k < |selected| && Greedy(pr, order, selected)[k] :: selected[k]
    ensures i in order && Greedy(pr, order, selected)[i] ==>
              !pr.Feasible(Pick(pr.candidates, Greedy(pr, order, selected)[i := false]))
  {
    if order != [] {
      var without := selected[order[0] := false];
      var next := if pr.Feasible(Pick(pr.candidates, without)) then without else selected;
      var r := Greedy(pr, order, selected);
      GreedyNeeds(pr, order[1..], next, i);
      if i == order[0] && r[i] && pr.Feasible(Pick(pr.candidates, r[i := false])) {
        MoreFrees(pr, r[i := false], without);
      }
    }
  }

  /** Whether what is freed covers the need of every pool. */
  method FitsAll(freed: array<int64>, need: seq<int64>) returns (r: bool)
    requires freed.Length == |need|
    ensures r <==> forall p | 0 <= p < |need| :: freed[p] >= need[p]
  {
    for p := 0 to |need|
      invariant forall k | 0 <= k < p :: freed[k] >= need[k]
    {
      if freed[p] < need[p] { return false; }
    }
    return true;
  }

  /** The array holds what a list of victims frees. */
  ghost predicate Holds(pr: Problem, freed: array<int64>, victims: seq<string>)
    reads freed
  {
    && freed.Length == |pr.pools|
    && forall p | 0 <= p < |pr.pools| :: freed[p] as int == Sum(pr.models, victims, Use(pr.pools[p]))
  }

  lemma PickInRange(pr: Problem, selected: seq<bool>, w: Measure)
    requires pr.Valid() && |selected| == |pr.candidates| && Planned(pr.limits, w)
    ensures 0 <= Sum(pr.models, Pick(pr.candidates, selected), w) <= MAX_INT64 as int
  {
    PickIsChosen(pr.candidates, selected);
    ChosenSum(pr.limits, pr.models, Pick(pr.candidates, selected), pr.candidates, w);
    StrictIsDistinct(pr.candidates);
    SumInRange(pr.limits, pr.models, pr.candidates, w);
  }

  /** One position of the greedy pass. */
  method TryKeep(pr: Problem, i: nat, before: seq<bool>, freed: array<int64>) returns (selected: seq<bool>)
    requires pr.Valid() && i < |pr.candidates| && |before| == |pr.candidates| && before[i]
    requires Holds(pr, freed, Pick(pr.candidates, before)) && pr.Feasible(Pick(pr.candidates, before))
    modifies freed
    ensures |selected| == |pr.candidates|
    ensures selected == if pr.Feasible(Pick(pr.candidates, before[i := false])) then before[i := false] else before
    ensures Holds(pr, freed, Pick(pr.candidates, selected)) && pr.Feasible(Pick(pr.candidates, selected))
  {
    ghost var rest := Pick(pr.candidates, before[i := false]);
    forall p | 0 <= p < |pr.pools|
      ensures Sum(pr.models, rest, Use(pr.pools[p])) == freed[p] as int - pr.usage[i][p] as int
      ensures 0 <= freed[p] as int - pr.usage[i][p] as int <= MAX_INT64 as int
    {
      PickWithout(pr.models, pr.candidates, before, i, Use(pr.pools[p]));
      PickInRange(pr, before[i := false], Use(pr.pools[p]));
    }
    SubtractFrom(freed, pr.usage[i]);
    assert Holds(pr, freed, rest);
    var fits := FitsAll(freed, pr.need);
    assert fits <==> pr.Feasible(rest);
    if fits {
      selected := before[i := false];
    } else {
      AddTo(freed, pr.usage[i]);
      selected := before;
    }
  }

  method Seed(pr: Problem) returns (selected: seq<bool>)
    requires pr.Valid() && pr.Feasible(pr.candidates)
    ensures selected == Greedy(pr, CostOrder(EvictCosts(pr)), AllSelected(pr)) && |selected| == |pr.candidates|
    ensures pr.Feasible(Pick(pr.candidates, selected))
  {
    var order := CostOrder(EvictCosts(pr));
    var freed := new int64[|pr.pools|](p requires pr.Valid() && 0 <= p < |pr.pools| => pr.suffix[0][p]);
    selected := seq(|pr.candidates|, _ => true);
    PickAll(pr.candidates, selected);
    assert pr.candidates[0..] == pr.candidates;
    for k := 0 to |order|
      invariant |selected| == |pr.candidates|
      invariant Holds(pr, freed, Pick(pr.candidates, selected)) && pr.Feasible(Pick(pr.candidates, selected))
      invariant forall j | k <= j < |order| :: selected[order[j]]
      invariant Greedy(pr, order, AllSelected(pr)) == Greedy(pr, order[k..], selected)
    {
      GreedyNext(pr, order, selected, k);
      OrderIsDistinct(EvictCosts(pr), order, k);
      selected := TryKeep(pr, order[k], selected, freed);
    }
    assert order[|order|..] == [];
  }

  lemma GreedyNext(pr: Problem, order: seq<nat>, selected: seq<bool>, k: nat)
    requires pr.Valid() && |selected| == |pr.candidates| && k < |order|
    requires forall i | 0 <= i < |order| :: order[i] < |selected|
    ensures var without := selected[order[k] := false];
            Greedy(pr, order[k..], selected)
            == Greedy(pr, order[k + 1..], if pr.Feasible(Pick(pr.candidates, without)) then without else selected)
  {
    assert order[k..][1..] == order[k + 1..];
  }

  lemma OrderIsDistinct(costs: seq<int64>, order: seq<nat>, k: nat)
    requires IsCostOrder(costs, order) && k < |order|
    ensures forall j | k < j < |order| :: order[j] != order[k]
  {
    forall j | k < j < |order| ensures order[j] != order[k] {
      assert Precedes(costs, order[k], order[j]);
    }
  }

  // ----- what the seed is

  /** What the pass has decided when it comes to place k: its choices so far, that candidate kept, the rest evicted. */
  ghost predicate Midway(order: seq<nat>, selected: seq<bool>, r: seq<bool>, k: nat, mid: seq<bool>)
    requires k < |order| && |r| == |selected| == |mid|
    requires forall i | 0 <= i < |order| :: order[i] < |selected|
  {
    forall j: nat | j < |mid| ::
      mid[j] == if j == order[k] then false else if j in order[..k] then r[j] else selected[j]
  }

  lemma {:induction false} GreedyLeaves(pr: Problem, order: seq<nat>, selected: seq<bool>, i: nat)
    requires pr.Valid() && |selected| == |pr.candidates| && i < |selected| && i !in order
    requires forall k | 0 <= k < |order| :: order[k] < |selected|
    ensures Greedy(pr, order, selected)[i] == selected[i]
  {
    if order != [] {
      var without := selected[order[0] := false];
      GreedyLeaves(pr, order[1..], if pr.Feasible(Pick(pr.candidates, without)) then without else selected, i);
    }
  }

  /** Each candidate is kept exactly if that leaves a feasible plan when its turn comes. */
  lemma {:induction false} GreedyDecides(pr: Problem, order: seq<nat>, selected: seq<bool>, k: nat, mid: seq<bool>)
    requires pr.Valid() && |selected| == |pr.candidates| == |mid| && k < |order|
    requires forall i | 0 <= i < |order| :: order[i] < |selected| && selected[order[i]]
    requires forall i, j | 0 <= i < j < |order| :: order[i] != order[j]
    requires Midway(order, selected, Greedy(pr, order, selected), k, mid)
    ensures Greedy(pr, order, selected)[order[k]] <==> !pr.Feasible(Pick(pr.candidates, mid))
  {
    var without := selected[order[0] := false];
    var next := if pr.Feasible(Pick(pr.candidates, without)) then without else selected;
    GreedyLeaves(pr, order[1..], next, order[0]);
    if k == 0 {
      assert mid == without;
    } else {
      MidwayBehind(pr, order, selected, next, k, mid);
      GreedyDecides(pr, order[1..], next, k - 1, mid);
    }
  }

  lemma MidwayBehind(pr: Problem, order: seq<nat>, selected: seq<bool>, next: seq<bool>, k: nat, mid: seq<bool>)
    requires pr.Valid() && |selected| == |pr.candidates| == |mid| == |next| && 0 < k < |order|
    requires forall i | 0 <= i < |order| :: order[i] < |selected|
    requires forall i, j | 0 <= i < j < |order| :: order[i] != order[j]
    requires forall j: nat | j < |next| && j != order[0] :: next[j] == selected[j]
    requires Greedy(pr, order[1..], next) == Greedy(pr, order, selected)
    requires Greedy(pr, order, selected)[order[0]] == next[order[0]]
    requires Midway(order, selected, Greedy(pr, order, selected), k, mid)
    ensures Midway(order[1..], next, Greedy(pr, order[1..], next), k - 1, mid)
  {
    assert order[..k] == [order[0]] + order[1..][..k - 1];
  }

  lemma PlanIsEligible(pr: Problem, target: string, running: seq<string>, plan: seq<string>)
    requires Poses(pr, target, running) && Chosen(plan, pr.candidates)
    ensures Eligible(target, running, plan) && Distinct(plan) && Elements(plan) <= Elements(pr.candidates)
  {
    DroppedElements(SortedDistinct(running), target);
    ChosenElements(plan, pr.candidates);
    StrictIsDistinct(plan);
  }

  lemma {:induction false} PickHas(s: seq<string>, selected: seq<bool>, x: string)
    requires |selected| == |s|
    ensures x in Pick(s, selected) <==> exists i :: 0 <= i < |s| && s[i] == x && selected[i]
  {
    if s != [] {
      var n := |s| - 1;
      PickHas(s[..n], selected[..n], x);
      if x in Pick(s[..n], selected[..n]) {
        var i :| 0 <= i < n && s[..n][i] == x && selected[..n][i];
        assert s[i] == x && selected[i];
      }
      if i :| 0 <= i < n && s[i] == x && selected[i] {
        assert s[..n][i] == x && selected[..n][i];
      }
    }
  }

  lemma PrecedesIsSooner(pr: Problem, a: nat, b: nat)
    requires pr.Valid() && a < |pr.candidates| && b < |pr.candidates| && a != b
    ensures Precedes(EvictCosts(pr), a, b) <==> Sooner(pr.models, pr.candidates[a], pr.candidates[b])
    ensures Sooner(pr.models, pr.candidates[a], pr.candidates[b])
            <==> !Sooner(pr.models, pr.candidates[b], pr.candidates[a])
  {
    var x, y := pr.candidates[a], pr.candidates[b];
    LessIsFirstDifference(x, y);
    LessIsFirstDifference(y, x);
    if a < b { LessAsymmetric(x, y); } else { LessAsymmetric(y, x); }
  }

  /** The candidates taken before place k are those that are kept sooner. */
  lemma TakenBefore(pr: Problem, order: seq<nat>, k: nat, j: nat)
    requires pr.Valid() && IsCostOrder(EvictCosts(pr), order) && k < |order| && j < |pr.candidates| && j != order[k]
    ensures j in order[..k] <==> Sooner(pr.models, pr.candidates[j], pr.candidates[order[k]])
  {
    assert j in order;
    var m :| 0 <= m < |order| && order[m] == j;
    PrecedesIsSooner(pr, j, order[k]);
    PrecedesIsSooner(pr, order[k], j);
    if m < k {
      assert Precedes(EvictCosts(pr), j, order[k]) && order[..k][m] == j;
    } else {
      assert Precedes(EvictCosts(pr), order[k], j);
    }
  }

  /** What stands evicted midway is what is gone if the candidate stays. */
  lemma MidwayIsGone(pr: Problem, target: string, running: seq<string>, order: seq<nat>, k: nat, mid: seq<bool>)
    requires Poses(pr, target, running) && |mid| == |pr.candidates| && k < |order|
    requires IsCostOrder(EvictCosts(pr), order)
    requires Midway(order, AllSelected(pr), Greedy(pr, order, AllSelected(pr)), k, mid)
    ensures Elements(Pick(pr.candidates, mid))
            == GoneIfKept(pr.models, target, running, Pick(pr.candidates, Greedy(pr, order, AllSelected(pr))),
                          pr.candidates[order[k]])
  {
    forall x ensures x in Elements(Pick(pr.candidates, mid)) <==>
                     x in GoneIfKept(pr.models, target, running,
                            Pick(pr.candidates, Greedy(pr, order, AllSelected(pr))), pr.candidates[order[k]])
    {
      GoneOrPicked(pr, target, running, order, k, mid, x);
    }
  }

  lemma GoneOrPicked(pr: Problem, target: string, running: seq<string>, order: seq<nat>, k: nat, mid: seq<bool>,
                     x: string)
    requires Poses(pr, target, running) && |mid| == |pr.candidates| && k < |order|
    requires IsCostOrder(EvictCosts(pr), order)
    requires Midway(order, AllSelected(pr), Greedy(pr, order, AllSelected(pr)), k, mid)
    ensures x in Pick(pr.candidates, mid) <==>
            x in GoneIfKept(pr.models, target, running,
                   Pick(pr.candidates, Greedy(pr, order, AllSelected(pr))), pr.candidates[order[k]])
  {
    DroppedElements(SortedDistinct(running), target);
    assert x in Elements(pr.candidates) <==> x in running && x != target;
    if x in pr.candidates {
      var j :| 0 <= j < |pr.candidates| && pr.candidates[j] == x;
      PickedMidway(pr, order, k, mid, j);
    } else {
      PickHas(pr.candidates, mid, x);
      PickHas(pr.candidates, Greedy(pr, order, AllSelected(pr)), x);
    }
  }

  lemma PickedMidway(pr: Problem, order: seq<nat>, k: nat, mid: seq<bool>, j: nat)
    requires pr.Valid() && |mid| == |pr.candidates| && k < |order| && j < |pr.candidates|
    requires IsCostOrder(EvictCosts(pr), order)
    requires Midway(order, AllSelected(pr), Greedy(pr, order, AllSelected(pr)), k, mid)
    ensures var r, x, id := Greedy(pr, order, AllSelected(pr)), pr.candidates[j], pr.candidates[order[k]];
            x in Pick(pr.candidates, mid)
            <==> (x in Pick(pr.candidates, r) && Sooner(pr.models, x, id)) || Sooner(pr.models, id, x)
  {
    GoneAt(pr, order, k, mid, j);
    PickedOnce(pr.candidates, mid, j);
    PickedOnce(pr.candidates, Greedy(pr, order, AllSelected(pr)), j);
  }

  /** Without repetitions, what is picked is what is selected. */
  lemma PickedOnce(s: seq<string>, selected: seq<bool>, j: nat)
    requires |selected| == |s| && j < |s| && StrictlySorted(s)
    ensures s[j] in Pick(s, selected) <==> selected[j]
  {
    StrictIsDistinct(s);
    PickHas(s, selected, s[j]);
    if i :| 0 <= i < |s| && s[i] == s[j] && selected[i] { assert i == j; }
  }

  lemma GoneAt(pr: Problem, order: seq<nat>, k: nat, mid: seq<bool>, j: nat)
    requires pr.Valid() && |mid| == |pr.candidates| && k < |order| && j < |pr.candidates|
    requires IsCostOrder(EvictCosts(pr), order)
    requires Midway(order, AllSelected(pr), Greedy(pr, order, AllSelected(pr)), k, mid)
    ensures var r, x, id := Greedy(pr, order, AllSelected(pr)), pr.candidates[j], pr.candidates[order[k]];
            mid[j] <==> (r[j] && Sooner(pr.models, x, id)) || Sooner(pr.models, id, x)
  {
    if j == order[k] {
      LessIsFirstDifference(pr.candidates[j], pr.candidates[j]);
      LessIrreflexive(pr.candidates[j]);
    } else {
      TakenBefore(pr, order, k, j);
      PrecedesIsSooner(pr, j, order[k]);
    }
  }

  lemma SeedIsVictimList(pr: Problem, target: string, running: seq<string>)
    requires Poses(pr, target, running)
    ensures VictimList(target, running, GreedySeed(pr))
  {
    PickIsChosen(pr.candidates, Greedy(pr, CostOrder(EvictCosts(pr)), AllSelected(pr)));
    PlanIsEligible(pr, target, running, GreedySeed(pr));
    VictimListIsEligible(target, running, GreedySeed(pr));
  }

  /** The greedy seed keeps the dearest running models first. */
  lemma SeedKeepsDearest(pr: Problem, target: string, running: seq<string>)
    requires Poses(pr, target, running)
    ensures KeepsDearest(pr.limits, pr.models, target, running, GreedySeed(pr))
  {
    SeedIsVictimList(pr, target, running);
    forall id | id in running && id != target
      ensures id !in GreedySeed(pr) <==>
              MakesRoom(pr.limits, pr.models, target, running,
                        GoneIfKept(pr.models, target, running, GreedySeed(pr), id))
    {
      var i := CandidateOf(pr, target, running, id);
      CandidateKept(pr, target, running, i);
    }
  }

  lemma CandidateOf(pr: Problem, target: string, running: seq<string>, id: string) returns (i: nat)
    requires Poses(pr, target, running) && id in running && id != target
    ensures i < |pr.candidates| && pr.candidates[i] == id
  {
    DroppedElements(SortedDistinct(running), target);
    assert id in Elements(pr.candidates);
    i :| 0 <= i < |pr.candidates| && pr.candidates[i] == id;
  }

  lemma CandidateKept(pr: Problem, target: string, running: seq<string>, i: nat)
    requires Poses(pr, target, running) && i < |pr.candidates|
    ensures pr.candidates[i] !in GreedySeed(pr) <==>
            MakesRoom(pr.limits, pr.models, target, running,
                      GoneIfKept(pr.models, target, running, GreedySeed(pr), pr.candidates[i]))
  {
    var order := CostOrder(EvictCosts(pr));
    assert i in order;
    var k :| 0 <= k < |order| && order[k] == i;
    KeptIffRoom(pr, target, running, k);
    PickedOnce(pr.candidates, Greedy(pr, order, AllSelected(pr)), i);
  }

  lemma KeptIffRoom(pr: Problem, target: string, running: seq<string>, k: nat)
    requires Poses(pr, target, running) && k < |CostOrder(EvictCosts(pr))|
    ensures var order := CostOrder(EvictCosts(pr));
            !Greedy(pr, order, AllSelected(pr))[order[k]] <==>
            MakesRoom(pr.limits, pr.models, target, running,
                      GoneIfKept(pr.models, target, running, GreedySeed(pr), pr.candidates[order[k]]))
  {
    var order := CostOrder(EvictCosts(pr));
    var r := Greedy(pr, order, AllSelected(pr));
    var mid := seq(|pr.candidates|, j => if j == order[k] then false else if j in order[..k] then r[j] else true);
    forall i, j | 0 <= i < j < |order| ensures order[i] != order[j] { OrderIsDistinct(EvictCosts(pr), order, i); }
    GreedyDecides(pr, order, AllSelected(pr), k, mid);
    PickIsChosen(pr.candidates, mid);
    PlanIsEligible(pr, target, running, Pick(pr.candidates, mid));
    FeasibleIffFits(pr, target, running, Pick(pr.candidates, mid));
    MidwayIsGone(pr, target, running, order, k, mid);
    RoomIsFits(pr.limits, pr.models, target, running, Elements(Pick(pr.candidates, mid)));
  }
}
