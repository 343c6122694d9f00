/** What a capacity decision promises. */
module CapacityPromise {
  import opened Strings
  import opened Collections
  import opened CapacityConfig
  import opened CapacityPlan

  // The promise is read off the configuration and the IDs alone.

  /** The target and the running models that stay share every pool. */
  ghost predicate MakesRoom(limits: map<string, int64>, models: Models, target: string, running: seq<string>,
                            gone: set<string>) {
    forall pool | pool in limits ::
      PoolUse(models, {target} + (Elements(running) - gone), pool) <= limits[pool] as int
  }

  /** Some of the running models, without the target and by rising ID. */
  ghost predicate VictimList(target: string, running: seq<string>, victims: seq<string>) {
    && (forall i, j | 0 <= i < j < |victims| :: StandsBefore(victims[i], victims[j]))
    && forall id | id in victims :: id in running && id != target
  }

  ghost function PriceOf(models: Models, id: string): int {
    if id in models then models[id].evictCost as int else 0
  }

  ghost function Price(models: Models, victims: seq<string>): int {
    if victims == [] then 0 else PriceOf(models, victims[0]) + Price(models, victims[1..])
  }

  /** At the first place where the lists differ a has the lower ID. */
  ghost predicate LowerAt(a: seq<string>, b: seq<string>, i: int) {
    0 <= i < |a| && i < |b| && a[..i] == b[..i] && StandsBefore(a[i], b[i])
  }

  /** Cheaper; as cheap with fewer victims; or as cheap with as many and the lower ID at the first difference. */
  ghost predicate Preferred(models: Models, a: seq<string>, b: seq<string>) {
    || Price(models, a) < Price(models, b)
    || (Price(models, a) == Price(models, b) && |a| < |b|)
    || (Price(models, a) == Price(models, b) && |a| == |b| && exists i :: LowerAt(a, b, i))
  }

  /** Kept running before another model: the dearer one, or the lower ID at the same price. */
  ghost predicate Sooner(models: Models, a: string, b: string) {
    PriceOf(models, a) > PriceOf(models, b) || (PriceOf(models, a) == PriceOf(models, b) && StandsBefore(a, b))
  }

  /** What is evicted if id stays: the victims among the models before it, and every model after it. */
  ghost function GoneIfKept(models: Models, target: string, running: seq<string>, victims: seq<string>, id: string)
      : set<string> {
    (set v | v in victims && Sooner(models, v, id)) + set v | v in running && v != target && Sooner(models, id, v)
  }

  /** Dearest first, each running model is kept exactly if that makes room. */
  ghost predicate KeepsDearest(limits: map<string, int64>, models: Models, target: string, running: seq<string>,
                               victims: seq<string>) {
    && VictimList(target, running, victims)
    && forall id | id in running && id != target ::
         id !in victims
         <==> MakesRoom(limits, models, target, running, GoneIfKept(models, target, running, victims, id))
  }

  /** Victims that make room, none of which could stay, no worse than keeping the dearest first; and the most preferred
      ones there are unless the search was cut off. */
  ghost predicate Promised(limits: map<string, int64>, models: Models, target: string, running: seq<string>,
                           evict: seq<string>, limited: bool) {
    && VictimList(target, running, evict) && MakesRoom(limits, models, target, running, Elements(evict))
    && (forall id | id in evict :: !MakesRoom(limits, models, target, running, Elements(evict) - {id}))
    && (exists seed :: KeepsDearest(limits, models, target, running, seed)
                       && (evict == seed || Preferred(models, evict, seed)))
    && (!limited ==>
          forall v | VictimList(target, running, v) && MakesRoom(limits, models, target, running, Elements(v)) ::
            evict == v || Preferred(models, evict, v))
  }

  // ----- that this is what the planner decides by

  lemma RoomIsFits(limits: map<string, int64>, models: Models, target: string, running: seq<string>,
                   gone: set<string>)
    ensures MakesRoom(limits, models, target, running, gone) <==> FitsAfter(limits, models, target, running, gone)
  {
    var stay := {target} + (Elements(running) - gone);
    forall pool
      ensures PoolUse(models, stay, pool)
              == Amount(models, target, Use(pool)) as int
                 + Total(models, Elements(running) - {target} - gone, Use(pool))
    {
      PoolUseIsTotal(models, stay, pool);
      TotalPick(models, stay, Use(pool), target);
      assert stay - {target} == Elements(running) - {target} - gone;
    }
  }

  lemma VictimListIsEligible(target: string, running: seq<string>, victims: seq<string>)
    ensures VictimList(target, running, victims) <==> Eligible(target, running, victims)
  {
    forall i, j | 0 <= i < j < |victims|
      ensures Less(victims[i], victims[j]) <==> StandsBefore(victims[i], victims[j])
    {
      LessIsFirstDifference(victims[i], victims[j]);
    }
    if Eligible(target, running, victims) {
      forall id | id in victims ensures id in running && id != target { assert id in Elements(victims); }
    }
  }

  lemma {:induction false} PriceIsCost(models: Models, victims: seq<string>)
    ensures Price(models, victims) == CostOf(models, victims)
  {
    if victims != [] {
      PriceIsCost(models, victims[1..]);
      SumFront(models, victims, EvictCost);
    }
  }

  /** Between lists of the same length only the first difference counts. */
  lemma {:induction false} SeqLessIsLowerAt(a: seq<string>, b: seq<string>)
    requires |a| == |b|
    ensures SeqLess(a, b) <==> exists i :: LowerAt(a, b, i)
  {
    if a != [] {
      LessIsFirstDifference(a[0], b[0]);
      if a[0] != b[0] {
        if StandsBefore(a[0], b[0]) { assert LowerAt(a, b, 0); }
      } else {
        LessIrreflexive(a[0]);
        SeqLessIsLowerAt(a[1..], b[1..]);
        LowerBehind(a, b);
      }
    }
  }

  lemma LowerBehind(a: seq<string>, b: seq<string>)
    requires a != [] && b != [] && a[0] == b[0] && !StandsBefore(a[0], b[0])
    ensures (exists i :: LowerAt(a, b, i)) <==> exists i :: LowerAt(a[1..], b[1..], i)
  {
    if i :| LowerAt(a[1..], b[1..], i) {
      assert a[..i + 1] == [a[0]] + a[1..][..i] && b[..i + 1] == [b[0]] + b[1..][..i];
      assert LowerAt(a, b, i + 1);
    }
    if i :| LowerAt(a, b, i) {
      assert a[1..][..i - 1] == a[..i][1..] && b[1..][..i - 1] == b[..i][1..];
      assert LowerAt(a[1..], b[1..], i - 1);
    }
  }

  lemma PreferredIsBetter(models: Models, a: seq<string>, b: seq<string>)
    ensures Preferred(models, a, b) <==> Better(models, a, b)
  {
    PriceIsCost(models, a);
    PriceIsCost(models, b);
    if |a| == |b| { SeqLessIsLowerAt(a, b); }
  }
}
