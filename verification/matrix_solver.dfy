/** Queries against a compiled program. */
module MatrixSolver {
  import opened BitMasks
  import opened Slices
  import opened Strings
  import opened Collections
  import opened MatrixNodes
  import opened MatrixTraversal
  import opened MatrixFrontier
  import opened MatrixEvaluator

  datatype CompiledSet = CompiledSet(name: string, dsl: string, root: Node, support: BitMask)

  datatype Program = Program(sets: seq<CompiledSet>, modelBits: map<string, nat>, words: nat)
  {
    /** Every model a set's expression mentions has its support bit. */
    ghost predicate Valid() {
      && (forall m | m in modelBits :: modelBits[m] / WORD_BITS < words)
      && (forall i | 0 <= i < |sets| :: |sets[i].support| == words)
      && (forall i, m | 0 <= i < |sets| && m in Mentioned(sets[i].root) ::
            m in modelBits && Has(sets[i].support, modelBits[m]))
    }
  }

  datatype Decision = Decision(
    evict: seq<string>, targetSet: seq<string>, setName: string, dsl: string, totalCost: int)

  /** evictionCost: models not listed cost 1. */
  function EvictionCost(costs: map<string, int>, model: string): int {
    if model in costs then costs[model] else 1
  }

  ghost predicate NonNegative(costs: map<string, int>) {
    forall m | m in costs :: costs[m] >= 0
  }

  /** What it costs to evict every running model a set does not keep; a model listed twice counts twice. */
  ghost function Cost(costs: map<string, int>, running: seq<string>, kept: set<string>): int {
    if running == [] then 0
    else
      var n := |running| - 1;
      Cost(costs, running[..n], kept) + if running[n] in kept then 0 else EvictionCost(costs, running[n])
  }

  /** The running models a set does not keep, in order. */
  ghost function Without(running: seq<string>, kept: set<string>): seq<string> {
    if running == [] then []
    else
      var n := |running| - 1;
      Without(running[..n], kept) + if running[n] in kept then [] else [running[n]]
  }

  lemma {:induction false} CostMonotone(costs: map<string, int>, running: seq<string>, a: set<string>, b: set<string>)
    requires NonNegative(costs)
    requires forall m | m in running && m in a :: m in b
    ensures 0 <= Cost(costs, running, b) <= Cost(costs, running, a)
  {
    if running != [] { CostMonotone(costs, running[..|running| - 1], a, b); }
  }

  lemma {:induction false} SameKept(costs: map<string, int>, running: seq<string>, a: set<string>, b: set<string>)
    requires forall m | m in running :: m in a <==> m in b
    ensures Cost(costs, running, a) == Cost(costs, running, b)
    ensures Without(running, a) == Without(running, b)
  {
    if running != [] { SameKept(costs, running[..|running| - 1], a, b); }
  }

  /** The price of a decision is the price of the models it evicts. */
  lemma {:induction false} CostIsEvicted(costs: map<string, int>, running: seq<string>, kept: set<string>)
    ensures Cost(costs, running, kept) == Cost(costs, Without(running, kept), {})
  {
    if running != [] {
      var n := |running| - 1;
      CostIsEvicted(costs, running[..n], kept);
      if running[n] in kept {
        assert Without(running, kept) == Without(running[..n], kept);
      } else {
        assert Without(running, kept)[..|Without(running, kept)| - 1] == Without(running[..n], kept);
      }
    }
  }

  // ----- bills, made out from the configured costs alone

  /** What the models of a list cost together: the configured cost, or 1 where none is configured. */
  ghost function Bill(costs: map<string, int>, models: seq<string>): int {
    if models == [] then 0
    else (if models[0] in costs then costs[models[0]] else 1) + Bill(costs, models[1..])
  }

  /** What the running models outside a set cost together, place by place. */
  ghost function BillOutside(costs: map<string, int>, running: seq<string>, kept: set<string>): int {
    if running == [] then 0
    else BillOutside(costs, running[1..], kept) + if running[0] in kept then 0 else Bill(costs, [running[0]])
  }

  /** The list has the running models outside a set, place by place and in order. */
  ghost predicate ListsOutside(running: seq<string>, kept: set<string>, evict: seq<string>) {
    exists at: seq<int> :: PlacesOutside(running, kept, evict, at)
  }

  ghost predicate PlacesOutside(running: seq<string>, kept: set<string>, evict: seq<string>, at: seq<int>) {
    && |at| == |evict| && (forall k, l | 0 <= k < l < |at| :: at[k] < at[l])
    && (forall k | 0 <= k < |at| :: 0 <= at[k] < |running| && running[at[k]] == evict[k])
    && forall i | 0 <= i < |running| :: i in at <==> running[i] !in kept
  }

  lemma {:induction false} BillNext(costs: map<string, int>, models: seq<string>, m: string)
    ensures Bill(costs, models + [m]) == Bill(costs, models) + EvictionCost(costs, m)
  {
    if models == [] {
      assert [m][1..] == [];
      assert [] + [m] == [m];
    } else {
      BillNext(costs, models[1..], m);
      assert (models + [m])[1..] == models[1..] + [m];
    }
  }

  lemma {:induction false} BillOutsideNext(costs: map<string, int>, running: seq<string>, m: string,
                                           kept: set<string>)
    ensures BillOutside(costs, running + [m], kept)
            == BillOutside(costs, running, kept) + if m in kept then 0 else EvictionCost(costs, m)
  {
    if running == [] {
      BillNext(costs, [], m);
      assert [m][1..] == [] && [] + [m] == [m];
    } else {
      BillOutsideNext(costs, running[1..], m, kept);
      assert (running + [m])[1..] == running[1..] + [m];
    }
  }

  lemma {:induction false} CostIsBill(costs: map<string, int>, running: seq<string>, kept: set<string>)
    ensures Cost(costs, running, kept) == BillOutside(costs, running, kept) == Bill(costs, Without(running, kept))
  {
    if running != [] {
      var n := |running| - 1;
      CostIsBill(costs, running[..n], kept);
      BillOutsideNext(costs, running[..n], running[n], kept);
      assert running == running[..n] + [running[n]];
      if running[n] in kept {
        assert Without(running, kept) == Without(running[..n], kept);
      } else {
        BillNext(costs, Without(running[..n], kept), running[n]);
      }
    }
  }

  lemma {:induction false} WithoutListsOutside(running: seq<string>, kept: set<string>) returns (at: seq<int>)
    ensures PlacesOutside(running, kept, Without(running, kept), at)
  {
    at := [];
    if running != [] {
      var n := |running| - 1;
      at := WithoutListsOutside(running[..n], kept);
      assert running == running[..n] + [running[n]];
      if running[n] in kept {
        assert Without(running, kept) == Without(running[..n], kept);
      } else {
        at := PlacesNext(running[..n], kept, Without(running[..n], kept), at, running[n]);
      }
    }
  }

  lemma PlacesNext(running: seq<string>, kept: set<string>, evict: seq<string>, before: seq<int>, m: string)
      returns (at: seq<int>)
    requires PlacesOutside(running, kept, evict, before) && m !in kept
    ensures PlacesOutside(running + [m], kept, evict + [m], at)
  {
    var n := |running|;
    at := before + [n];
    forall i | 0 <= i < n + 1 ensures i in at <==> (running + [m])[i] !in kept {
      assert i in at <==> i in before || i == n;
    }
  }

  /** s is a set of program set i that allows the target to run. */
  ghost predicate Candidate(p: Program, target: string, i: int, s: set<string>) {
    0 <= i < |p.sets| && s in Expansion(p.sets[i].root) && target in s
  }

  /** No set of the full expansion is cheaper, and none of an earlier program set is as cheap. */
  ghost predicate Cheapest(p: Program, target: string, running: seq<string>, costs: map<string, int>,
                           i: int, s: set<string>) {
    && Candidate(p, target, i, s)
    && forall j, t | Candidate(p, target, j, t) ::
         && Cost(costs, running, s) <= Cost(costs, running, t)
         && (j < i ==> Cost(costs, running, s) < Cost(costs, running, t))
  }

  /** What a decision reports about the set it chose. */
  ghost predicate Reports(p: Program, running: seq<string>, costs: map<string, int>, d: Decision,
                          i: int, s: set<string>)
    requires 0 <= i < |p.sets|
  {
    && d.setName == p.sets[i].name && d.dsl == p.sets[i].dsl
    && d.evict == Without(running, s)
    && d.totalCost == Cost(costs, running, s)
    && StrictlySorted(d.targetSet) && Elements(d.targetSet) == s - {""}
  }

  /** The first program set with a described set that contains all the models, if any. */
  ghost predicate FirstContaining(p: Program, models: seq<string>, i: int) {
    && 0 <= i < |p.sets| && Contained(p.sets[i].root, models)
    && forall j | 0 <= j < i :: !Contained(p.sets[j].root, models)
  }

  ghost predicate Contained(n: Node, models: seq<string>) {
    exists s :: s in Expansion(n) && Elements(models) <= s
  }

  ghost predicate NamesFirst(p: Program, models: seq<string>, name: string, dsl: string) {
    if exists i :: FirstContaining(p, models, i) then
      exists i :: FirstContaining(p, models, i) && name == p.sets[i].name && dsl == p.sets[i].dsl
    else
      name == "" && dsl == ""
  }

  /** Whether some described set contains all the models. */
  ghost predicate Coexist(p: Program, models: seq<string>) {
    exists i :: 0 <= i < |p.sets| && Contained(p.sets[i].root, models)
  }

  /** What Solve promises. */
  ghost predicate Solved(p: Program, target: string, running: seq<string>, costs: map<string, int>, d: Decision) {
    if target in running then
      && d.evict == [] && d.targetSet == running && d.totalCost == 0
      && NamesFirst(p, running, d.setName, d.dsl)
    else if exists i, s :: Candidate(p, target, i, s) then
      exists i, s :: Cheapest(p, target, running, costs, i, s) && Reports(p, running, costs, d, i, s)
    else
      d == Decision(running, [target], "", "", 0)
  }

  /** The price of a target that is not running, by the configured costs: the victims are the running models outside a
      described set with the target, their bill is reported, and no other such set leaves a smaller one out, nor an
      equal one in an earlier expression. */
  ghost predicate Billed(p: Program, target: string, running: seq<string>, costs: map<string, int>, d: Decision) {
    if exists i, s :: Candidate(p, target, i, s) then
      exists i, s :: Candidate(p, target, i, s) && BilledFor(p, target, running, costs, d, i, s)
    else
      d.evict == running && d.totalCost == 0
  }

  ghost predicate BilledFor(p: Program, target: string, running: seq<string>, costs: map<string, int>, d: Decision,
                            i: int, s: set<string>)
    requires 0 <= i < |p.sets|
  {
    && d.setName == p.sets[i].name && d.dsl == p.sets[i].dsl
    && ListsOutside(running, s, d.evict) && d.totalCost == Bill(costs, d.evict)
    && forall j, t | Candidate(p, target, j, t) ::
         && d.totalCost <= BillOutside(costs, running, t)
         && (j < i ==> d.totalCost < BillOutside(costs, running, t))
  }

  /** The cheapest set has the smallest bill. */
  lemma SolvedIsBilled(p: Program, target: string, running: seq<string>, costs: map<string, int>, d: Decision)
    requires target !in running && Solved(p, target, running, costs, d)
    ensures Billed(p, target, running, costs, d)
  {
    if exists i, s :: Candidate(p, target, i, s) {
      var i, s :| Cheapest(p, target, running, costs, i, s) && Reports(p, running, costs, d, i, s);
      CostIsBill(costs, running, s);
      var at := WithoutListsOutside(running, s);
      forall j, t | Candidate(p, target, j, t)
        ensures d.totalCost <= BillOutside(costs, running, t)
        ensures j < i ==> d.totalCost < BillOutside(costs, running, t)
      {
        CostIsBill(costs, running, t);
      }
      assert BilledFor(p, target, running, costs, d, i, s);
    }
  }

  // ----- which decision it is

  ghost function Relevant(target: string, running: seq<string>): set<string> {
    Elements(running) + {target}
  }

  ghost function StatesOf(p: Program, relevant: set<string>, i: int): seq<Kept>
    requires 0 <= i < |p.sets|
  {
    Traversal(relevant, p.sets[i].root)
  }

  /** State k of program set i keeps the target. */
  ghost predicate Yields(p: Program, relevant: set<string>, target: string, i: int, k: int) {
    0 <= i < |p.sets| && 0 <= k < |StatesOf(p, relevant, i)| && target in StatesOf(p, relevant, i)[k].seen
  }

  ghost function Price(p: Program, relevant: set<string>, target: string, running: seq<string>,
                       costs: map<string, int>, i: int, k: int): int
    requires Yields(p, relevant, target, i, k)
  {
    Cost(costs, running, StatesOf(p, relevant, i)[k].seen)
  }

  predicate Before(j: int, m: int, i: int, k: int) {
    j < i || (j == i && m < k)
  }

  /** State k of set i is the first of the cheapest states that keep the target. */
  ghost predicate FirstCheapest(p: Program, target: string, running: seq<string>, costs: map<string, int>,
                                i: int, k: int) {
    var relevant := Relevant(target, running);
    && Yields(p, relevant, target, i, k)
    && forall j, m | Yields(p, relevant, target, j, m) ::
         var mine, other := Price(p, relevant, target, running, costs, i, k),
                            Price(p, relevant, target, running, costs, j, m);
         mine <= other && (Before(j, m, i, k) ==> mine < other)
  }

  /** What a decision reports about the state it chose. */
  ghost predicate ReportsState(p: Program, running: seq<string>, costs: map<string, int>, d: Decision, i: int,
                               kept: Kept)
    requires 0 <= i < |p.sets|
  {
    && d.setName == p.sets[i].name && d.dsl == p.sets[i].dsl
    && d.evict == Without(running, kept.seen)
    && d.totalCost == Cost(costs, running, kept.seen)
    && StrictlySorted(d.targetSet) && Elements(d.targetSet) == kept.models
  }

  /** The decision on a target that is not running: the first of the cheapest states in the order of the traversal. */
  ghost predicate Picked(p: Program, target: string, running: seq<string>, costs: map<string, int>, d: Decision) {
    var relevant := Relevant(target, running);
    if exists i, k :: Yields(p, relevant, target, i, k) then
      exists i, k :: FirstCheapest(p, target, running, costs, i, k)
                     && ReportsState(p, running, costs, d, i, StatesOf(p, relevant, i)[k])
    else
      d == Decision(running, [target], "", "", 0)
  }

  /** Nothing of a decision is left open, whatever ties there are. */
  lemma PickedIsUnique(p: Program, target: string, running: seq<string>, costs: map<string, int>, d: Decision,
                       e: Decision)
    requires Picked(p, target, running, costs, d) && Picked(p, target, running, costs, e)
    ensures d == e
  {
    var relevant := Relevant(target, running);
    if exists i, k :: Yields(p, relevant, target, i, k) {
      var i, k :| FirstCheapest(p, target, running, costs, i, k)
                  && ReportsState(p, running, costs, d, i, StatesOf(p, relevant, i)[k]);
      var j, m :| FirstCheapest(p, target, running, costs, j, m)
                  && ReportsState(p, running, costs, e, j, StatesOf(p, relevant, j)[m]);
      assert i == j && k == m;
      SortedUnique(d.targetSet, e.targetSet);
    }
  }

  /** A state that keeps the target is the projection of a candidate with the same cost. */
  lemma StateIsCandidate(p: Program, target: string, running: seq<string>, costs: map<string, int>, i: int, k: int)
      returns (s: set<string>)
    requires Yields(p, Relevant(target, running), target, i, k)
    ensures Candidate(p, target, i, s)
    ensures StatesOf(p, Relevant(target, running), i)[k] == KeptOf(Relevant(target, running), s)
    ensures Cost(costs, running, s) == Price(p, Relevant(target, running), target, running, costs, i, k)
    ensures Without(running, s) == Without(running, StatesOf(p, Relevant(target, running), i)[k].seen)
  {
    var relevant := Relevant(target, running);
    var ks := StatesOf(p, relevant, i);
    TraversalRepresents(relevant, p.sets[i].root);
    assert KeepsOne(relevant, Expansion(p.sets[i].root), ks[k]);
    s :| s in Expansion(p.sets[i].root) && ks[k] == KeptOf(relevant, s);
    SameKept(costs, running, ks[k].seen, s);
  }

  /** Some state that keeps the target costs no more than a given candidate. */
  lemma StateUnder(p: Program, target: string, running: seq<string>, costs: map<string, int>, i: int, t: set<string>)
      returns (k: int)
    requires NonNegative(costs) && Candidate(p, target, i, t)
    ensures Yields(p, Relevant(target, running), target, i, k)
    ensures Price(p, Relevant(target, running), target, running, costs, i, k) <= Cost(costs, running, t)
  {
    var relevant := Relevant(target, running);
    var ks := StatesOf(p, relevant, i);
    TraversalRepresents(relevant, p.sets[i].root);
    assert t * relevant in Projections(relevant, Expansion(p.sets[i].root));
    k :| 0 <= k < |ks| && t * relevant <= ks[k].seen;
    assert target in t * relevant;
    CostMonotone(costs, running, t, ks[k].seen);
  }

  /** The first of the cheapest states is a cheapest set of the full expansion, of the first program set that has
      one. */
  lemma PickedIsCheapest(p: Program, target: string, running: seq<string>, costs: map<string, int>, d: Decision)
    requires NonNegative(costs) && target !in running && Picked(p, target, running, costs, d)
    ensures Solved(p, target, running, costs, d)
  {
    var relevant := Relevant(target, running);
    if exists i, k :: Yields(p, relevant, target, i, k) {
      var i, k :| FirstCheapest(p, target, running, costs, i, k)
                  && ReportsState(p, running, costs, d, i, StatesOf(p, relevant, i)[k]);
      var s := StateIsCandidate(p, target, running, costs, i, k);
      forall j, t | Candidate(p, target, j, t)
        ensures Cost(costs, running, s) <= Cost(costs, running, t)
        ensures j < i ==> Cost(costs, running, s) < Cost(costs, running, t)
      {
        var m := StateUnder(p, target, running, costs, j, t);
      }
      assert Cheapest(p, target, running, costs, i, s) && Reports(p, running, costs, d, i, s);
    } else {
      forall i, t ensures !Candidate(p, target, i, t) {
        if Candidate(p, target, i, t) { var k := StateUnder(p, target, running, costs, i, t); }
      }
    }
  }

  // ----- the queries

  method FlattenWitness(root: Witness) returns (models: seq<string>)
    ensures StrictlySorted(models) && Elements(models) == Models(root)
  {
    var seen, found := Visit(root, {}, []);
    models := SortedDistinct(found);
  }

  method Visit(current: Witness, seen0: set<string>, models0: seq<string>)
      returns (seen: set<string>, models: seq<string>)
    requires Elements(models0) == seen0
    ensures Elements(models) == seen == seen0 + Models(current)
    decreases current
  {
    seen, models := seen0, models0;
    match current {
      case Nothing =>
      case Choice(model, left, right) =>
        if model != "" && model !in seen {
          ElementsConcat(models, [model]);
          seen, models := seen + {model}, models + [model];
        }
        seen, models := Visit(left, seen, models);
        seen, models := Visit(right, seen, models);
    }
  }

  method SupportsAll(p: Program, i: nat, models: seq<string>) returns (r: bool)
    requires p.Valid() && i < |p.sets|
    ensures Contained(p.sets[i].root, models) ==> r
    ensures r <==> forall m | m in models :: m in p.modelBits && Has(p.sets[i].support, p.modelBits[m])
  {
    if s :| s in Expansion(p.sets[i].root) && Elements(models) <= s {
      ExpansionMentioned(p.sets[i].root, s);
    }
    for k := 0 to |models|
      invariant forall m | m in models[..k] :: m in p.modelBits && Has(p.sets[i].support, p.modelBits[m])
    {
      if models[k] !in p.modelBits || !Has(p.sets[i].support, p.modelBits[models[k]]) {
        return false;
      }
    }
    return true;
  }

  /** The states show whether an expression describes a set containing the whole registry. */
  lemma StatesContain(bits: map<string, nat>, words: nat, root: Node, states: seq<State>)
    requires Shows(bits, words, states, Traversal(bits.Keys, root))
    ensures MasksOk(bits, words, states)
    ensures Covers(bits, states, bits.Keys) <==> exists s :: s in Expansion(root) && bits.Keys <= s
  {
    var ks := Traversal(bits.Keys, root);
    TraversalRepresents(bits.Keys, root);
    CoversIsUnder(bits, words, states, ks, bits.Keys);
    if s :| s in Expansion(root) && bits.Keys <= s {
      assert s * bits.Keys == bits.Keys;
      assert bits.Keys in Projections(bits.Keys, Expansion(root));
    }
    if i :| 0 <= i < |ks| && bits.Keys <= ks[i].seen {
      assert KeepsOne(bits.Keys, Expansion(root), ks[i]);
      var s :| s in Expansion(root) && ks[i] == KeptOf(bits.Keys, s);
      assert bits.Keys <= s;
    }
    forall k | 0 <= k < |states| ensures MaskOk(bits, words, states[k].mask) {
      assert Stands(bits, words, states[k], ks[k]);
    }
  }

  /** Whether the frontier of a set holds a state with every required bit. */
  method HoldsAll(e: Evaluator, root: Node, required: BitMask) returns (r: bool)
    requires e.Valid() && MaskOk(e.modelBits, e.words, required)
    requires Seen(e.modelBits, required) == e.modelBits.Keys
    modifies e
    ensures e.Valid()
    ensures r <==> exists s :: s in Expansion(root) && e.modelBits.Keys <= s
  {
    var states := e.Evaluate(root);
    StatesContain(e.modelBits, e.words, root, states.Contents());
    r := ScanForAll(e.modelBits, e.words, states, required);
  }

  method ScanForAll(ghost bits: map<string, nat>, ghost words: nat, states: Slice<State>, required: BitMask)
      returns (r: bool)
    requires states.Valid() && MasksOk(bits, words, states.Contents())
    requires MaskOk(bits, words, required)
    ensures r <==> Covers(bits, states.Contents(), Seen(bits, required))
  {
    ghost var all := states.Contents();
    for k := 0 to states.len
      invariant forall j | 0 <= j < k :: !(Seen(bits, required) <= Seen(bits, all[j].mask))
    {
      assert states.arr[k] == all[k];
      SubsetIsSeen(bits, words, required, all[k].mask);
      var contains := SubsetOf(required, states.arr[k].mask);
      if contains { return true; }
    }
    return false;
  }

  /** Whether program set i has a described set with every model of the query. */
  method SetHolds(p: Program, i: nat, e: Evaluator, models: seq<string>, required: BitMask) returns (r: bool)
    requires p.Valid() && i < |p.sets|
    requires e.Valid() && MaskOk(e.modelBits, e.words, required)
    requires Seen(e.modelBits, required) == e.modelBits.Keys == Elements(models)
    modifies e
    ensures e.Valid()
    ensures r <==> Contained(p.sets[i].root, models)
  {
    r := SupportsAll(p, i, models);
    if r {
      r := HoldsAll(e, p.sets[i].root, required);
    }
  }

  method CanContainAll(p: Program, models: seq<string>) returns (r: bool)
    requires p.Valid()
    ensures r <==> models == [] || Coexist(p, models)
  {
    if models == [] { return true; }
    var e := new Evaluator(models);
    var required := e.FullMask();
    for i := 0 to |p.sets|
      invariant e.Valid() && fresh(e)
      invariant forall j | 0 <= j < i :: !Contained(p.sets[j].root, models)
    {
      var holds := SetHolds(p, i, e, models, required);
      if holds { return true; }
    }
    return false;
  }

  method FindContaining(p: Program, models: seq<string>) returns (name: string, dsl: string)
    requires p.Valid()
    ensures if models == [] then name == "" && dsl == "" else NamesFirst(p, models, name, dsl)
  {
    if models == [] { return "", ""; }
    var e := new Evaluator(models);
    var required := e.FullMask();
    for i := 0 to |p.sets|
      invariant e.Valid() && fresh(e)
      invariant forall j | 0 <= j < i :: !Contained(p.sets[j].root, models)
    {
      var holds := SetHolds(p, i, e, models, required);
      if holds {
        assert FirstContaining(p, models, i);
        return p.sets[i].name, p.sets[i].dsl;
      }
    }
    return "", "";
  }

  lemma BitInRange(bits: map<string, nat>, words: nat, mask: BitMask, model: string)
    requires Registered(bits, words) && |mask| == words && model in bits
    ensures bits[model] / WORD_BITS < |mask|
    ensures Has(mask, bits[model]) <==> model in Seen(bits, mask)
  {
  }

  /** The summed cost of the running models a state does not keep. */
  method StateCost(bits: map<string, nat>, ghost words: nat, running: seq<string>, costs: map<string, int>,
                   mask: BitMask)
      returns (cost: int)
    requires Registered(bits, words) && |mask| == words
    requires forall m | m in running :: m in bits
    ensures cost == Cost(costs, running, Seen(bits, mask))
  {
    cost := 0;
    for k := 0 to |running|
      invariant cost == Cost(costs, running[..k], Seen(bits, mask))
    {
      BitInRange(bits, words, mask, running[k]);
      assert running[..k + 1][..k] == running[..k];
      if !Has(mask, bits[running[k]]) {
        cost := cost + EvictionCost(costs, running[k]);
      }
    }
    assert running[..|running|] == running;
  }

  method NotKept(bits: map<string, nat>, ghost words: nat, running: seq<string>, mask: BitMask)
      returns (evict: seq<string>)
    requires Registered(bits, words) && |mask| == words
    requires forall m | m in running :: m in bits
    ensures evict == Without(running, Seen(bits, mask))
  {
    evict := [];
    for k := 0 to |running|
      invariant evict == Without(running[..k], Seen(bits, mask))
    {
      BitInRange(bits, words, mask, running[k]);
      assert running[..k + 1][..k] == running[..k];
      if !Has(mask, bits[running[k]]) {
        evict := evict + [running[k]];
      }
    }
    assert running[..|running|] == running;
  }

  datatype Best = Best(cost: int, index: nat, state: State)

  /** The cheapest state so far, after the first n states of set i; pos is where it stands in its set. */
  ghost predicate Scanned(bits: map<string, nat>, words: nat, target: string, running: seq<string>,
                          costs: map<string, int>, before: Best, at: int, i: nat, ks: seq<Kept>, n: nat,
                          best: Best, pos: int)
    requires n <= |ks|
  {
    && (forall m | 0 <= m < n && target in ks[m].seen :: 0 <= best.cost <= Cost(costs, running, ks[m].seen))
    && ((best == before && pos == at)
        || (&& 0 <= pos < n && best.index == i && Stands(bits, words, best.state, ks[pos]) && target in ks[pos].seen
            && 0 <= best.cost == Cost(costs, running, ks[pos].seen)
            && (before.cost < 0 || best.cost < before.cost)
            && forall m | 0 <= m < pos && target in ks[m].seen :: best.cost < Cost(costs, running, ks[m].seen)))
  }

  /** The loop over the states of one set. */
  method ScanSet(bits: map<string, nat>, ghost words: nat, target: string, running: seq<string>,
                 costs: map<string, int>, before: Best, ghost at: int, i: nat, states: Slice<State>,
                 ghost ks: seq<Kept>) returns (best: Best, ghost pos: int)
    requires Registered(bits, words) && states.Valid() && Shows(bits, words, states.Contents(), ks)
    requires target in bits && forall m | m in running :: m in bits
    requires NonNegative(costs)
    ensures Scanned(bits, words, target, running, costs, before, at, i, ks, |ks|, best, pos)
    ensures forall m | 0 <= m < |ks| && target in ks[m].seen :: 0 <= best.cost <= Cost(costs, running, ks[m].seen)
  {
    ghost var all := states.Contents();
    best, pos := before, at;
    for k := 0 to states.len
      invariant Scanned(bits, words, target, running, costs, before, at, i, ks, k, best, pos)
    {
      var state := states.arr[k];
      assert state == all[k] && Stands(bits, words, all[k], ks[k]);
      BitInRange(bits, words, state.mask, target);
      if Has(state.mask, bits[target]) {
        var cost := StateCost(bits, words, running, costs, state.mask);
        CostMonotone(costs, running, Seen(bits, state.mask), Seen(bits, state.mask));
        if best.cost < 0 || cost < best.cost {
          best, pos := Best(cost, i, state), k;
        }
      }
    }
  }

  /** The first of the cheapest states among the first i program sets; pos is where it stands in its set. */
  ghost predicate BestOf(bits: map<string, nat>, words: nat, p: Program, target: string, running: seq<string>,
                         costs: map<string, int>, i: nat, best: Best, pos: int) {
    if best.cost < 0 then forall j, m | Yields(p, bits.Keys, target, j, m) :: j >= i
    else
      && best.index < i && Yields(p, bits.Keys, target, best.index, pos)
      && Stands(bits, words, best.state, StatesOf(p, bits.Keys, best.index)[pos])
      && best.cost == Price(p, bits.Keys, target, running, costs, best.index, pos)
      && forall j, m | Yields(p, bits.Keys, target, j, m) && j < i ::
           && best.cost <= Price(p, bits.Keys, target, running, costs, j, m)
           && (Before(j, m, best.index, pos) ==> best.cost < Price(p, bits.Keys, target, running, costs, j, m))
  }

  /** Scanning set i extends the first of the cheapest states to it. */
  lemma ScanIsBest(bits: map<string, nat>, words: nat, p: Program, target: string, running: seq<string>,
                   costs: map<string, int>, i: nat, before: Best, at: int, best: Best, pos: int)
    requires i < |p.sets| && BestOf(bits, words, p, target, running, costs, i, before, at)
    requires Scanned(bits, words, target, running, costs, before, at, i, StatesOf(p, bits.Keys, i),
               |StatesOf(p, bits.Keys, i)|, best, pos)
    ensures BestOf(bits, words, p, target, running, costs, i + 1, best, pos)
  {
  }

  /** A set skipped by its support has no state that keeps the target. */
  lemma SkippedSet(bits: map<string, nat>, words: nat, p: Program, target: string, running: seq<string>,
                   costs: map<string, int>, i: nat, best: Best, pos: int)
    requires p.Valid() && i < |p.sets| && bits.Keys == Relevant(target, running)
    requires BestOf(bits, words, p, target, running, costs, i, best, pos)
    requires target !in p.modelBits || !Has(p.sets[i].support, p.modelBits[target])
    ensures BestOf(bits, words, p, target, running, costs, i + 1, best, pos)
  {
    forall m ensures !Yields(p, bits.Keys, target, i, m) {
      if Yields(p, bits.Keys, target, i, m) {
        var s := StateIsCandidate(p, target, running, costs, i, m);
        ExpansionMentioned(p.sets[i].root, s);
      }
    }
  }

  /** One program set of Solve's outer loop. */
  method SolveSet(e: Evaluator, p: Program, target: string, running: seq<string>, costs: map<string, int>,
                  i: nat, before: Best, ghost at: int) returns (best: Best, ghost pos: int)
    requires e.Valid() && p.Valid() && NonNegative(costs) && i < |p.sets|
    requires e.modelBits.Keys == Relevant(target, running)
    requires BestOf(e.modelBits, e.words, p, target, running, costs, i, before, at)
    modifies e
    ensures e.Valid()
    ensures BestOf(e.modelBits, e.words, p, target, running, costs, i + 1, best, pos)
  {
    if target !in p.modelBits || !Has(p.sets[i].support, p.modelBits[target]) {
      SkippedSet(e.modelBits, e.words, p, target, running, costs, i, before, at);
      return before, at;
    }
    var states := e.Evaluate(p.sets[i].root);
    best, pos := ScanSet(e.modelBits, e.words, target, running, costs, before, at, i, states,
                         StatesOf(p, e.modelBits.Keys, i));
    ScanIsBest(e.modelBits, e.words, p, target, running, costs, i, before, at, best, pos);
  }

  method Solve(p: Program, target: string, running: seq<string>, costs: map<string, int>) returns (d: Decision)
    requires p.Valid() && NonNegative(costs)
    ensures Solved(p, target, running, costs, d)
    ensures target !in running ==> Picked(p, target, running, costs, d) && Billed(p, target, running, costs, d)
  {
    if target in running {
      var setName, dsl := FindContaining(p, running);
      return Decision([], running, setName, dsl, 0);
    }
    var e := new Evaluator([target] + running);
    ElementsConcat([target], running);
    assert e.modelBits.Keys == Relevant(target, running);
    var best := Best(-1, 0, State([], Nothing));
    ghost var pos := 0;
    for i := 0 to |p.sets|
      invariant e.Valid() && fresh(e)
      invariant BestOf(e.modelBits, e.words, p, target, running, costs, i, best, pos)
    {
      best, pos := SolveSet(e, p, target, running, costs, i, best, pos);
    }
    d := Decide(e.modelBits, e.words, p, target, running, costs, best, pos);
    PickedIsCheapest(p, target, running, costs, d);
    SolvedIsBilled(p, target, running, costs, d);
  }

  method Decide(bits: map<string, nat>, ghost words: nat, p: Program, target: string, running: seq<string>,
                costs: map<string, int>, best: Best, ghost pos: int) returns (d: Decision)
    requires target !in running && Registered(bits, words) && bits.Keys == Relevant(target, running)
    requires BestOf(bits, words, p, target, running, costs, |p.sets|, best, pos)
    ensures Picked(p, target, running, costs, d)
  {
    if best.cost < 0 {
      return Decision(running, [target], "", "", 0);
    }
    var evict := NotKept(bits, words, running, best.state.mask);
    var targetSet := FlattenWitness(best.state.origin);
    d := Decision(evict, targetSet, p.sets[best.index].name, p.sets[best.index].dsl, best.cost);
    ghost var kept := StatesOf(p, bits.Keys, best.index)[pos];
    assert View(bits, best.state) == kept;
    assert FirstCheapest(p, target, running, costs, best.index, pos);
    assert ReportsState(p, running, costs, d, best.index, kept);
  }
}
