/** The tables the capacity planner works on: the candidates, what each uses of every pool, what their suffixes use
    together, and what every pool lacks. */
module CapacityPlanner {
  import opened Strings
  import opened Collections
  import opened CapacityConfig
  import opened CapacityPlan
  import opened CapacitySearch

  const DEFAULT_NODE_BUDGET := 100000

  // ----- the tables

  /** The keys of a map, sorted. */
  method SortedKeys(keys: set<string>) returns (r: seq<string>)
    ensures StrictlySorted(r) && Elements(r) == keys
  {
    r := [];
    var todo := keys;
    while todo != {}
      invariant todo <= keys && StrictlySorted(r) && Elements(r) == keys - todo
      decreases todo
    {
      var k :| k in todo;
      r, todo := Insert(r, k), todo - {k};
    }
  }

  /** The sorted, repetition-free running models without the target. */
  ghost function Candidates(target: string, running: seq<string>): seq<string> {
    Dropped(SortedDistinct(running), target)
  }

  ghost function Dropped(s: seq<string>, x: string): seq<string> {
    if s == [] then []
    else Dropped(s[..|s| - 1], x) + if s[|s| - 1] == x then [] else [s[|s| - 1]]
  }

  lemma {:induction false} DroppedElements(s: seq<string>, x: string)
    requires StrictlySorted(s)
    ensures StrictlySorted(Dropped(s, x)) && Elements(Dropped(s, x)) == Elements(s) - {x}
  {
    if s != [] {
      var n := |s| - 1;
      DroppedElements(s[..n], x);
      assert s == s[..n] + [s[n]];
      ElementsConcat(s[..n], [s[n]]);
      ElementsConcat(Dropped(s[..n], x), [s[n]]);
      LessIrreflexive(s[n]);
      forall i | 0 <= i < |Dropped(s[..n], x)| ensures Less(Dropped(s[..n], x)[i], s[n]) {
        assert Dropped(s[..n], x)[i] in Elements(s[..n]);
      }
    }
  }

  /** What candidate id uses of each pool. */
  function Row(models: Models, id: string, pools: seq<string>): (r: seq<int64>)
    ensures |r| == |pools|
  {
    seq(|pools|, p requires 0 <= p < |pools| => Amount(models, id, Use(pools[p])))
  }

  /** What every pool lacks when the target joins the candidates. */
  ghost predicate IsNeed(limits: map<string, int64>, models: Models, target: string, pools: seq<string>,
                         candidates: seq<string>, need: seq<int64>)
    requires forall p | 0 <= p < |pools| :: pools[p] in limits
  {
    && |need| == |pools|
    && forall p | 0 <= p < |pools| ::
         need[p] as int == Amount(models, target, Use(pools[p])) as int + Sum(models, candidates, Use(pools[p]))
                           - limits[pools[p]] as int
  }

  /** Adds what one more candidate uses to what is needed. */
  method Accumulate(limits: map<string, int64>, models: Models, target: string, pools: seq<string>,
                    ids: seq<string>, id: string, before: seq<int64>) returns (need: seq<int64>)
    requires Validated(limits, models) && forall p | 0 <= p < |pools| :: pools[p] in limits
    requires Distinct([target] + (ids + [id])) && |before| == |pools|
    requires forall p | 0 <= p < |pools| :: before[p] as int == Sum(models, [target] + ids, Use(pools[p]))
    ensures |need| == |pools|
    ensures forall p | 0 <= p < |pools| :: need[p] as int == Sum(models, [target] + (ids + [id]), Use(pools[p]))
  {
    need := before;
    assert [target] + (ids + [id]) == ([target] + ids) + [id];
    assert (([target] + ids) + [id])[..|[target] + ids|] == [target] + ids;
    for p := 0 to |pools|
      invariant |need| == |pools|
      invariant forall k | 0 <= k < p :: need[k] as int == Sum(models, [target] + (ids + [id]), Use(pools[k]))
      invariant forall k | p <= k < |pools| :: need[k] == before[k]
    {
      SumInRange(limits, models, [target] + (ids + [id]), Use(pools[p]));
      need := need[p := need[p] + Amount(models, id, Use(pools[p]))];
    }
  }

  /** The candidates, what they use, and the summed use of target and candidates. */
  method Tabulate(limits: map<string, int64>, models: Models, target: string, ids: seq<string>, pools: seq<string>)
      returns (candidates: seq<string>, usage: seq<seq<int64>>, need: seq<int64>)
    requires Validated(limits, models) && StrictlySorted(ids)
    requires forall p | 0 <= p < |pools| :: pools[p] in limits
    ensures candidates == Dropped(ids, target) && StrictlySorted(candidates) && |usage| == |candidates|
    ensures forall i | 0 <= i < |candidates| :: usage[i] == Row(models, candidates[i], pools)
    ensures |need| == |pools|
    ensures forall p | 0 <= p < |pools| :: need[p] as int == Sum(models, [target] + candidates, Use(pools[p]))
  {
    candidates, usage, need := [], [], Row(models, target, pools);
    forall p | 0 <= p < |pools|
      ensures need[p] as int == Sum(models, [target] + [], Use(pools[p]))
    {
      assert [target] + [] == [target];
      SumFront(models, [target], Use(pools[p]));
    }
    for k := 0 to |ids|
      invariant candidates == Dropped(ids[..k], target) && |usage| == |candidates| && |need| == |pools|
      invariant forall i | 0 <= i < |candidates| :: usage[i] == Row(models, candidates[i], pools)
      invariant forall p | 0 <= p < |pools| :: need[p] as int == Sum(models, [target] + candidates, Use(pools[p]))
    {
      assert ids[..k + 1][..k] == ids[..k];
      if ids[k] == target { continue; }
      TargetFirstIsDistinct(ids, k + 1, target);
      assert Dropped(ids[..k + 1], target) == candidates + [ids[k]];
      need := Accumulate(limits, models, target, pools, candidates, ids[k], need);
      candidates, usage := candidates + [ids[k]], usage + [Row(models, ids[k], pools)];
    }
    assert ids[..|ids|] == ids;
    DroppedElements(ids, target);
  }

  lemma TargetFirstIsDistinct(ids: seq<string>, k: nat, target: string)
    requires StrictlySorted(ids) && k <= |ids|
    ensures Distinct([target] + Dropped(ids[..k], target))
  {
    var c := Dropped(ids[..k], target);
    DroppedElements(ids[..k], target);
    StrictIsDistinct(c);
    assert target !in Elements(c);
  }

  /** suffix[i] sums what candidates i and later use. */
  method SuffixSums(limits: map<string, int64>, models: Models, pools: seq<string>, candidates: seq<string>,
                    usage: seq<seq<int64>>) returns (suffix: seq<seq<int64>>)
    requires Validated(limits, models) && StrictlySorted(candidates) && |usage| == |candidates|
    requires forall p | 0 <= p < |pools| :: pools[p] in limits
    requires forall i | 0 <= i < |candidates| :: usage[i] == Row(models, candidates[i], pools)
    ensures |suffix| == |candidates| + 1
    ensures forall i | 0 <= i <= |candidates| :: IsSuffixRow(models, pools, candidates, i, suffix[i])
  {
    suffix := seq(|candidates| + 1, _ => seq(|pools|, _ => 0));
    var i := |candidates|;
    assert candidates[i..] == [];
    while i > 0
      invariant 0 <= i <= |candidates| && |suffix| == |candidates| + 1
      invariant forall k | i <= k <= |candidates| :: IsSuffixRow(models, pools, candidates, k, suffix[k])
    {
      i := i - 1;
      var row := AddRow(limits, models, pools, candidates, i, usage[i], suffix[i + 1]);
      suffix := suffix[i := row];
    }
  }

  ghost predicate IsSuffixRow(models: Models, pools: seq<string>, candidates: seq<string>, i: nat, row: seq<int64>)
    requires i <= |candidates|
  {
    && |row| == |pools|
    && forall p | 0 <= p < |pools| :: row[p] as int == Sum(models, candidates[i..], Use(pools[p]))
  }

  method AddRow(limits: map<string, int64>, models: Models, pools: seq<string>, candidates: seq<string>,
                i: nat, use: seq<int64>, before: seq<int64>) returns (row: seq<int64>)
    requires Validated(limits, models) && StrictlySorted(candidates) && i < |candidates|
    requires forall p | 0 <= p < |pools| :: pools[p] in limits
    requires use == Row(models, candidates[i], pools)
    requires IsSuffixRow(models, pools, candidates, i + 1, before)
    ensures IsSuffixRow(models, pools, candidates, i, row)
  {
    row := before;
    StrictIsDistinct(candidates);
    assert candidates[i..][1..] == candidates[i + 1..];
    for p := 0 to |pools|
      invariant |row| == |pools|
      invariant forall k | 0 <= k < p :: row[k] as int == Sum(models, candidates[i..], Use(pools[k]))
      invariant forall k | p <= k < |pools| :: row[k] == before[k]
    {
      SumFront(models, candidates[i..], Use(pools[p]));
      SumInRange(limits, models, candidates[i..], Use(pools[p]));
      row := row[p := row[p] + use[p]];
    }
  }

  /** Takes what each pool holds off what is needed of it. */
  method SubtractTotals(limits: map<string, int64>, pools: seq<string>, before: seq<int64>) returns (need: seq<int64>)
    requires |before| == |pools|
    requires forall p | 0 <= p < |pools| :: pools[p] in limits && before[p] >= 0 && limits[pools[p]] > 0
    ensures |need| == |pools|
    ensures forall p | 0 <= p < |pools| :: need[p] as int == before[p] as int - limits[pools[p]] as int
  {
    need := before;
    for p := 0 to |pools|
      invariant |need| == |pools|
      invariant forall k | 0 <= k < p :: need[k] as int == before[k] as int - limits[pools[k]] as int
      invariant forall k | p <= k < |pools| :: need[k] == before[k]
    {
      need := need[p := need[p] - limits[pools[p]]];
    }
  }

  /** The problem the search works on. */
  method Pose(limits: map<string, int64>, models: Models, target: string, running: seq<string>) returns (pr: Problem)
    requires Validated(limits, models)
    ensures Poses(pr, target, running) && pr.limits == limits && pr.models == models
  {
    var pools := SortedKeys(limits.Keys);
    assert forall p | 0 <= p < |pools| :: pools[p] in Elements(pools);
    var candidates, usage, use := Tabulate(limits, models, target, SortedDistinct(running), pools);
    forall p | 0 <= p < |pools|
      ensures use[p] as int == Amount(models, target, Use(pools[p])) as int + Sum(models, candidates, Use(pools[p]))
      ensures use[p] >= 0
    {
      SumConcat(models, [target], candidates, Use(pools[p]));
      SumFront(models, [target], Use(pools[p]));
      SumNonNegative(limits, models, [target] + candidates, Use(pools[p]));
    }
    var need := SubtractTotals(limits, pools, use);
    var suffix := SuffixSums(limits, models, pools, candidates, usage);
    forall i | 0 <= i <= |candidates| ensures |suffix[i]| == |pools| {
      assert IsSuffixRow(models, pools, candidates, i, suffix[i]);
    }
    pr := Problem(limits, models, pools, candidates, usage, suffix, need);
  }

  /** What the search works on, for a given target and running list. */
  ghost predicate Poses(pr: Problem, target: string, running: seq<string>) {
    && pr.Valid() && pr.candidates == Candidates(target, running)
    && StrictlySorted(pr.pools) && Elements(pr.pools) == pr.limits.Keys
    && IsNeed(pr.limits, pr.models, target, pr.pools, pr.candidates, pr.need)
  }

  lemma FreesIffFits(pr: Problem, target: string, running: seq<string>, victims: seq<string>, p: nat)
    requires Poses(pr, target, running) && p < |pr.pools|
    requires Distinct(victims) && Elements(victims) <= Elements(pr.candidates)
    ensures Sum(pr.models, victims, Use(pr.pools[p])) >= pr.need[p] as int <==>
            Amount(pr.models, target, Use(pr.pools[p])) as int
            + Total(pr.models, Elements(running) - {target} - Elements(victims), Use(pr.pools[p]))
            <= pr.limits[pr.pools[p]] as int
  {
    var w := Use(pr.pools[p]);
    DroppedElements(SortedDistinct(running), target);
    StrictIsDistinct(pr.candidates);
    SumIsTotal(pr.models, victims, w);
    SumIsTotal(pr.models, pr.candidates, w);
    TotalSplit(pr.models, Elements(pr.candidates), Elements(victims), w);
  }

  /** Freeing what is needed is the same as fitting afterwards. */
  lemma FeasibleIffFits(pr: Problem, target: string, running: seq<string>, victims: seq<string>)
    requires Poses(pr, target, running)
    requires Distinct(victims) && Elements(victims) <= Elements(pr.candidates)
    ensures pr.Feasible(victims) <==> FitsAfter(pr.limits, pr.models, target, running, Elements(victims))
  {
    if pr.Feasible(victims) {
      forall pool | pool in pr.limits
        ensures Amount(pr.models, target, Use(pool)) as int
                + Total(pr.models, Elements(running) - {target} - Elements(victims), Use(pool))
                <= pr.limits[pool] as int
      {
        assert pool in Elements(pr.pools);
        var p :| 0 <= p < |pr.pools| && pr.pools[p] == pool;
        FreesIffFits(pr, target, running, victims, p);
      }
    }
    if FitsAfter(pr.limits, pr.models, target, running, Elements(victims)) {
      forall p | 0 <= p < |pr.pools| ensures Sum(pr.models, victims, Use(pr.pools[p])) >= pr.need[p] as int {
        FreesIffFits(pr, target, running, victims, p);
      }
    }
  }
}
