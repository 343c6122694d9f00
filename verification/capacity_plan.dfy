/** Eviction plans: sums over victims, what fits afterwards, which of two plans is better, choices from the candidates,
    and the order of the greedy pass. */
module CapacityPlan {
  import opened Strings
  import opened Collections
  import opened CapacityConfig

  /** The sum over a list of models. */
  ghost function Sum(models: Models, ids: seq<string>, w: Measure): int {
    if ids == [] then 0 else Sum(models, ids[..|ids| - 1], w) + Amount(models, ids[|ids| - 1], w) as int
  }

  lemma {:induction false} SumConcat(models: Models, a: seq<string>, b: seq<string>, w: Measure)
    ensures Sum(models, a + b, w) == Sum(models, a, w) + Sum(models, b, w)
  {
    if b == [] {
      assert a + b == a;
    } else {
      SumConcat(models, a, b[..|b| - 1], w);
      assert (a + b)[..|a + b| - 1] == a + b[..|b| - 1];
    }
  }

  /** Over distinct models the list sum is the total. */
  lemma {:induction false} SumIsTotal(models: Models, ids: seq<string>, w: Measure)
    requires Distinct(ids)
    ensures Sum(models, ids, w) == Total(models, Elements(ids), w)
  {
    if ids != [] {
      var n := |ids| - 1;
      SumIsTotal(models, ids[..n], w);
      assert ids == ids[..n] + [ids[n]];
      ElementsConcat(ids[..n], [ids[n]]);
      TotalPick(models, Elements(ids), w, ids[n]);
      assert Elements(ids) - {ids[n]} == Elements(ids[..n]);
    }
  }

  /** What the planner may rely on after validation. */
  ghost predicate Validated(pools: map<string, int64>, models: Models) {
    && (forall pool | pool in pools :: pools[pool] > 0)
    && (forall pool | pool in pools :: NonNegative(models, models.Keys, Use(pool)))
    && NonNegative(models, models.Keys, EvictCost)
    && (forall id, pool | pool in pools :: Amount(models, id, Use(pool)) <= pools[pool])
    && Bounded(pools, models)
  }

  lemma AcceptableIsValidated(isSpace: char -> bool, pools: map<string, int64>, models: Models)
    requires Acceptable(isSpace, pools, models)
    ensures Validated(pools, models)
  {
    forall pool | pool in pools ensures NonNegative(models, models.Keys, Use(pool)) {
      FittingIsNonNegative(isSpace, pools, models, models.Keys, Use(pool));
    }
    FittingIsNonNegative(isSpace, pools, models, models.Keys, EvictCost);
  }

  /** A measure the planner adds up: a configured pool, or the cost. */
  ghost predicate Planned(pools: map<string, int64>, w: Measure) {
    w.Use? ==> w.pool in pools
  }

  lemma AmountNonNegative(pools: map<string, int64>, models: Models, id: string, w: Measure)
    requires Validated(pools, models) && Planned(pools, w)
    ensures Amount(models, id, w) >= 0
  {
  }

  /** No sum over distinct models, known or not, leaves the int64 range. */
  lemma SumInRange(pools: map<string, int64>, models: Models, ids: seq<string>, w: Measure)
    requires Validated(pools, models) && Planned(pools, w) && Distinct(ids)
    ensures 0 <= Sum(models, ids, w) <= MAX_INT64 as int
  {
    var s := Elements(ids) * models.Keys;
    SumIsTotal(models, ids, w);
    TotalKnown(models, Elements(ids), w);
    TotalNonNegative(models, s, w);
    TotalMonotone(models, s, models.Keys, w);
  }

  // ----- feasibility

  /** Once the victims are gone, the target and the models left fit every pool. */
  ghost predicate FitsAfter(pools: map<string, int64>, models: Models, target: string, running: seq<string>,
                            victims: set<string>) {
    forall pool | pool in pools ::
      Amount(models, target, Use(pool)) as int
      + Total(models, Elements(running) - {target} - victims, Use(pool)) <= pools[pool] as int
  }

  /** The victims are distinct running models other than the target, in order. */
  ghost predicate Eligible(target: string, running: seq<string>, victims: seq<string>) {
    StrictlySorted(victims) && Elements(victims) <= Elements(running) - {target}
  }

  // ----- comparing plans

  /** Lexicographic order of lists of names; a proper front comes first. */
  predicate SeqLess(a: seq<string>, b: seq<string>) {
    if b == [] then false
    else if a == [] then true
    else Less(a[0], b[0]) || (a[0] == b[0] && SeqLess(a[1..], b[1..]))
  }

  lemma {:induction false} SeqLessTransitive(a: seq<string>, b: seq<string>, c: seq<string>)
    requires SeqLess(a, b) && SeqLess(b, c)
    ensures SeqLess(a, c)
  {
    if a != [] {
      LessIrreflexive(a[0]);
      if Less(a[0], b[0]) && Less(b[0], c[0]) { LessTransitive(a[0], b[0], c[0]); }
      if SeqLess(a[1..], b[1..]) && SeqLess(b[1..], c[1..]) { SeqLessTransitive(a[1..], b[1..], c[1..]); }
    }
  }

  lemma {:induction false} SeqLessTotal(a: seq<string>, b: seq<string>)
    ensures a == b || SeqLess(a, b) || SeqLess(b, a)
  {
    if a != [] && b != [] {
      LessTotal(a[0], b[0]);
      SeqLessTotal(a[1..], b[1..]);
      if a[0] == b[0] && a[1..] == b[1..] { assert a == [a[0]] + a[1..] && b == [b[0]] + b[1..]; }
    }
  }

  lemma {:induction false} SeqLessIrreflexive(a: seq<string>)
    ensures !SeqLess(a, a)
  {
    if a != [] {
      LessIrreflexive(a[0]);
      SeqLessIrreflexive(a[1..]);
    }
  }

  ghost function CostOf(models: Models, victims: seq<string>): int {
    Sum(models, victims, EvictCost)
  }

  /** Cheaper; or as cheap with fewer victims; or as cheap with as many, first in order. */
  ghost predicate Better(models: Models, a: seq<string>, b: seq<string>) {
    || CostOf(models, a) < CostOf(models, b)
    || (CostOf(models, a) == CostOf(models, b) && (|a| < |b| || (|a| == |b| && SeqLess(a, b))))
  }

  ghost predicate AtLeastAsGood(models: Models, a: seq<string>, b: seq<string>) {
    a == b || Better(models, a, b)
  }

  lemma BetterTransitive(models: Models, a: seq<string>, b: seq<string>, c: seq<string>)
    requires AtLeastAsGood(models, a, b) && AtLeastAsGood(models, b, c)
    ensures AtLeastAsGood(models, a, c)
  {
    if SeqLess(a, b) && SeqLess(b, c) { SeqLessTransitive(a, b, c); }
  }

  /** The order is total and strict, so a best plan is unique. */
  lemma BestIsUnique(models: Models, a: seq<string>, b: seq<string>)
    ensures AtLeastAsGood(models, a, b) || Better(models, b, a)
    ensures !(Better(models, a, b) && AtLeastAsGood(models, b, a))
  {
    SeqLessTotal(a, b);
    SeqLessIrreflexive(a);
    if SeqLess(a, b) && SeqLess(b, a) { SeqLessTransitive(a, b, a); }
  }

  // ----- choosing from the candidates

  /** w lists some of s, in order. */
  ghost predicate Chosen(w: seq<string>, s: seq<string>) {
    if w == [] then true
    else if s == [] then false
    else Chosen(w, s[1..]) || (w[0] == s[0] && Chosen(w[1..], s[1..]))
  }

  lemma {:induction false} ChosenElements(w: seq<string>, s: seq<string>)
    requires Chosen(w, s)
    ensures Elements(w) <= Elements(s) && |w| <= |s|
    ensures StrictlySorted(s) ==> StrictlySorted(w)
    ensures Distinct(s) ==> Distinct(w)
  {
    if w != [] {
      assert s == [s[0]] + s[1..];
      ElementsConcat([s[0]], s[1..]);
      if Chosen(w, s[1..]) {
        ChosenElements(w, s[1..]);
      } else {
        assert w == [w[0]] + w[1..];
        ElementsConcat([w[0]], w[1..]);
        ChosenElements(w[1..], s[1..]);
        forall j | 1 <= j < |w| ensures w[j] in s[1..] {
          assert w[1..][j - 1] in Elements(w[1..]);
        }
      }
    }
  }

  /** Any sorted selection from a sorted list is a choice from it. */
  lemma {:induction false} SortedIsChosen(w: seq<string>, s: seq<string>)
    requires StrictlySorted(w) && StrictlySorted(s) && Elements(w) <= Elements(s)
    ensures Chosen(w, s)
  {
    if w != [] {
      assert w[0] in Elements(w);
      assert s == [s[0]] + s[1..] && w == [w[0]] + w[1..];
      SortedTail(s);
      SortedTail(w);
      if w[0] == s[0] {
        SortedIsChosen(w[1..], s[1..]);
      } else {
        assert w[0] in s[1..];
        HeadNotBehind(s, w);
        SortedIsChosen(w, s[1..]);
      }
    }
  }

  lemma HeadNotBehind(s: seq<string>, w: seq<string>)
    requires StrictlySorted(s) && StrictlySorted(w) && s != [] && w != []
    requires w[0] in s[1..] && w[0] != s[0]
    ensures s[0] !in w
  {
    var i :| 1 <= i < |s| && s[i] == w[0];
    LessAsymmetric(s[0], w[0]);
  }

  lemma LessAsymmetric(a: string, b: string)
    requires Less(a, b)
    ensures !Less(b, a)
  {
    LessIrreflexive(a);
    if Less(b, a) { LessTransitive(a, b, a); }
  }

  lemma {:induction false} ChosenSelf(s: seq<string>)
    ensures Chosen(s, s) && Chosen([], s)
  {
    if s != [] { ChosenSelf(s[1..]); }
  }

  lemma {:induction false} ChosenConcat(a: seq<string>, s: seq<string>, b: seq<string>, t: seq<string>)
    requires Chosen(a, s) && Chosen(b, t)
    ensures Chosen(a + b, s + t)
  {
    if s == [] {
      assert a + b == b && s + t == t;
    } else {
      assert (s + t)[1..] == s[1..] + t;
      if Chosen(a, s[1..]) {
        ChosenConcat(a, s[1..], b, t);
      } else {
        ChosenConcat(a[1..], s[1..], b, t);
        assert (a + b)[1..] == a[1..] + b;
      }
    }
  }

  lemma {:induction false} SumFront(models: Models, s: seq<string>, w: Measure)
    requires s != []
    ensures Sum(models, s, w) == Amount(models, s[0], w) as int + Sum(models, s[1..], w)
  {
    SumConcat(models, [s[0]], s[1..], w);
    assert [s[0]] + s[1..] == s && [s[0]][..0] == [];
  }

  lemma {:induction false} SumNonNegative(pools: map<string, int64>, models: Models, s: seq<string>, w: Measure)
    requires Validated(pools, models) && Planned(pools, w)
    ensures Sum(models, s, w) >= 0
  {
    if s != [] {
      SumNonNegative(pools, models, s[..|s| - 1], w);
      AmountNonNegative(pools, models, s[|s| - 1], w);
    }
  }

  /** A choice adds up to no more than what it is chosen from. */
  lemma {:induction false} ChosenSum(pools: map<string, int64>, models: Models, c: seq<string>, s: seq<string>,
                                     w: Measure)
    requires Validated(pools, models) && Planned(pools, w) && Chosen(c, s)
    ensures 0 <= Sum(models, c, w) <= Sum(models, s, w)
  {
    SumNonNegative(pools, models, c, w);
    SumNonNegative(pools, models, s, w);
    if c != [] {
      SumFront(models, s, w);
      AmountNonNegative(pools, models, s[0], w);
      if Chosen(c, s[1..]) {
        ChosenSum(pools, models, c, s[1..], w);
      } else {
        SumFront(models, c, w);
        ChosenSum(pools, models, c[1..], s[1..], w);
      }
    }
  }

  /** Selected candidates, in order. */
  ghost function Pick(s: seq<string>, selected: seq<bool>): seq<string>
    requires |selected| == |s|
  {
    if s == [] then []
    else
      var n := |s| - 1;
      Pick(s[..n], selected[..n]) + if selected[n] then [s[n]] else []
  }

  lemma {:induction false} PickIsChosen(s: seq<string>, selected: seq<bool>)
    requires |selected| == |s|
    ensures Chosen(Pick(s, selected), s)
  {
    if s != [] {
      var n := |s| - 1;
      PickIsChosen(s[..n], selected[..n]);
      assert s == s[..n] + [s[n]];
      ChosenSelf([s[n]]);
      ChosenConcat(Pick(s[..n], selected[..n]), s[..n], if selected[n] then [s[n]] else [], [s[n]]);
    }
  }

  lemma {:induction false} PickWithout(models: Models, s: seq<string>, selected: seq<bool>, i: nat, w: Measure)
    requires |selected| == |s| && i < |s| && selected[i]
    ensures Sum(models, Pick(s, selected[i := false]), w)
            == Sum(models, Pick(s, selected), w) - Amount(models, s[i], w) as int
  {
    var n := |s| - 1;
    var less := selected[i := false];
    SumConcat(models, Pick(s[..n], selected[..n]), if selected[n] then [s[n]] else [], w);
    SumConcat(models, Pick(s[..n], less[..n]), if less[n] then [s[n]] else [], w);
    SumFront(models, [s[n]], w);
    if i < n {
      PickWithout(models, s[..n], selected[..n], i, w);
      assert selected[..n][i := false] == less[..n];
    } else {
      assert selected[..n] == less[..n];
    }
  }

  lemma {:induction false} PickAll(s: seq<string>, selected: seq<bool>)
    requires |selected| == |s| && forall i | 0 <= i < |s| :: selected[i]
    ensures Pick(s, selected) == s
  {
    if s != [] { PickAll(s[..|s| - 1], selected[..|s| - 1]); }
  }

  /** A total splits along any part. */
  lemma {:induction false} TotalSplit(models: Models, a: set<string>, b: set<string>, w: Measure)
    requires b <= a
    ensures Total(models, a, w) == Total(models, b, w) + Total(models, a - b, w)
  {
    if b == {} {
      assert a - b == a;
    } else {
      var id :| id in b;
      TotalPick(models, a, w, id);
      TotalPick(models, b, w, id);
      TotalSplit(models, a - {id}, b - {id}, w);
      assert a - {id} - (b - {id}) == a - b;
    }
  }

  // ----- the order of the greedy seed

  /** Dearest first; equal costs by position. */
  predicate Precedes(costs: seq<int64>, a: nat, b: nat)
    requires a < |costs| && b < |costs|
  {
    costs[a] > costs[b] || (costs[a] == costs[b] && a < b)
  }

  /** Every position once, dearest first. */
  ghost predicate IsCostOrder(costs: seq<int64>, order: seq<nat>) {
    && (forall i | 0 <= i < |order| :: order[i] < |costs|)
    && (forall k: nat | k < |costs| :: k in order)
    && (forall i, j | 0 <= i < j < |order| :: Precedes(costs, order[i], order[j]))
  }

  /** The positions in the order the greedy pass takes them. */
  function CostOrder(costs: seq<int64>): (order: seq<nat>)
    ensures IsCostOrder(costs, order)
  {
    if costs == [] then []
    else
      var n := |costs| - 1;
      var before := CostOrder(costs[..n]);
      PlacePosition(costs, before, n)
  }

  function PlacePosition(costs: seq<int64>, order: seq<nat>, n: nat): (r: seq<nat>)
    requires n == |costs| - 1 && IsCostOrder(costs[..n], order)
    ensures IsCostOrder(costs, r)
  {
    var k := PlaceAt(costs, order, n);
    PlacedIsOrder(costs, order, n, k);
    order[..k] + [n] + order[k..]
  }

  lemma PlacedIsOrder(costs: seq<int64>, order: seq<nat>, n: nat, k: nat)
    requires n == |costs| - 1 && IsCostOrder(costs[..n], order) && k <= |order|
    requires forall i | 0 <= i < k :: costs[order[i]] >= costs[n]
    requires forall i | k <= i < |order| :: costs[order[i]] < costs[n]
    ensures IsCostOrder(costs, order[..k] + [n] + order[k..])
  {
    var r := order[..k] + [n] + order[k..];
    forall i, j | 0 <= i < j < |r| ensures r[i] < |costs| && r[j] < |costs| && Precedes(costs, r[i], r[j]) {
      var x, y := if i < k then i else i - 1, if j < k then j else j - 1;
      if i != k && j != k {
        assert r[i] == order[x] && r[j] == order[y] && Precedes(costs[..n], order[x], order[y]);
      }
    }
    forall m: nat | m < |costs| ensures m in r {
      if m < n {
        assert m in order;
        var i :| 0 <= i < |order| && order[i] == m;
        assert r[if i < k then i else i + 1] == m;
      } else {
        assert r[k] == n;
      }
    }
    forall i | 0 <= i < |r| ensures r[i] < |costs| {
      if i != k { assert r[i] == order[if i < k then i else i - 1]; }
    }
  }

  /** How many positions stay before n. */
  function PlaceAt(costs: seq<int64>, order: seq<nat>, n: nat): (k: nat)
    requires n == |costs| - 1 && IsCostOrder(costs[..n], order)
    ensures k <= |order|
    ensures forall i | 0 <= i < k :: costs[order[i]] >= costs[n]
    ensures forall i | k <= i < |order| :: costs[order[i]] < costs[n]
  {
    PlaceFrom(costs, order, n, |order|)
  }

  function PlaceFrom(costs: seq<int64>, order: seq<nat>, n: nat, k: nat): (r: nat)
    requires n == |costs| - 1 && IsCostOrder(costs[..n], order) && k <= |order|
    requires forall i | k <= i < |order| :: costs[order[i]] < costs[n]
    ensures r <= k
    ensures forall i | 0 <= i < r :: costs[order[i]] >= costs[n]
    ensures forall i | r <= i < |order| :: costs[order[i]] < costs[n]
    decreases k
  {
    if k > 0 && costs[order[k - 1]] < costs[n] then PlaceFrom(costs, order, n, k - 1)
    else
      assert forall i | 0 <= i < k - 1 :: Precedes(costs[..n], order[i], order[k - 1]);
      k
  }
}
