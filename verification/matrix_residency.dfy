/** What can be resident together over whole runs. */
module MatrixResidency {
  import opened Collections
  import opened MatrixNodes
  import opened MatrixSolver

  /** A swap asks Solve and makes room before the target joins; a stop removes a model for any reason. */
  datatype Step =
    | Swap(target: string, running: seq<string>, decision: Decision)
    | Stop(model: string)

  ghost predicate Allowed(p: Program, costs: map<string, int>, resident: set<string>, step: Step, next: set<string>) {
    match step
    case Swap(target, running, d) =>
      && Elements(running) == resident && Solved(p, target, running, costs, d)
      && next == resident - Elements(d.evict) + {target}
    case Stop(model) => next == resident - {model}
  }

  /** residents[i] is what is resident after i steps. */
  ghost predicate Run(p: Program, costs: map<string, int>, steps: seq<Step>, residents: seq<set<string>>) {
    && |residents| == |steps| + 1 && residents[0] == {}
    && forall i | 0 <= i < |steps| :: Allowed(p, costs, residents[i], steps[i], residents[i + 1])
  }

  /** At most one model, or a subset of one set the DSL describes. */
  ghost predicate Compatible(p: Program, resident: set<string>) {
    |resident| <= 1 || exists i, s :: 0 <= i < |p.sets| && s in Expansion(p.sets[i].root) && resident <= s
  }

  lemma {:induction false} WithoutElements(running: seq<string>, kept: set<string>)
    ensures Elements(Without(running, kept)) == Elements(running) - kept
  {
    if running != [] {
      var n := |running| - 1;
      WithoutElements(running[..n], kept);
      assert running == running[..n] + [running[n]];
      ElementsConcat(running[..n], [running[n]]);
      if running[n] in kept {
        assert Without(running, kept) == Without(running[..n], kept);
      } else {
        ElementsConcat(Without(running[..n], kept), [running[n]]);
      }
    }
  }

  lemma StepKeepsCompatible(p: Program, costs: map<string, int>, resident: set<string>, step: Step, next: set<string>)
    requires Compatible(p, resident) && Allowed(p, costs, resident, step, next)
    ensures Compatible(p, next)
  {
    match step
    case Stop(model) => FewerIsCompatible(p, resident, next);
    case Swap(target, running, d) =>
      if target in running {
        assert next == resident;
      } else if exists i, s :: Candidate(p, target, i, s) {
        SwapFits(p, target, running, costs, d, resident, next);
      } else {
        assert next == {target};
      }
  }

  lemma SwapFits(p: Program, target: string, running: seq<string>, costs: map<string, int>, d: Decision,
                 resident: set<string>, next: set<string>)
    requires Solved(p, target, running, costs, d) && target !in running && Elements(running) == resident
    requires exists i, s :: Candidate(p, target, i, s)
    requires next == resident - Elements(d.evict) + {target}
    ensures Compatible(p, next)
  {
    var i, s :| Cheapest(p, target, running, costs, i, s) && Reports(p, running, costs, d, i, s);
    WithoutElements(running, s);
    assert next <= s;
  }

  lemma FewerIsCompatible(p: Program, resident: set<string>, next: set<string>)
    requires Compatible(p, resident) && next <= resident
    ensures Compatible(p, next)
  {
    if |resident| <= 1 {
      SubsetSize(next, resident);
    } else {
      var i, s :| 0 <= i < |p.sets| && s in Expansion(p.sets[i].root) && resident <= s;
      assert next <= s;
    }
  }

  /** Over any run from nothing, the resident models are always compatible. */
  lemma {:induction false} RunsStayCompatible(p: Program, costs: map<string, int>, steps: seq<Step>,
                                              residents: seq<set<string>>, i: nat)
    requires Run(p, costs, steps, residents) && i < |residents|
    ensures Compatible(p, residents[i])
  {
    if i > 0 {
      RunsStayCompatible(p, costs, steps, residents, i - 1);
      StepKeepsCompatible(p, costs, residents[i - 1], steps[i - 1], residents[i]);
    }
  }

  /** With the positive costs validation demands, Solve evicts nothing exactly when the target runs already, or nothing
      runs, or everything may run together. */
  lemma NoEvictionIffCoexist(p: Program, target: string, running: seq<string>, costs: map<string, int>, d: Decision)
    requires forall m | m in costs :: costs[m] > 0
    requires Solved(p, target, running, costs, d)
    ensures d.evict == [] <==> target in running || running == [] || Coexist(p, [target] + running)
  {
    ElementsConcat([target], running);
    if target !in running && running != [] {
      if d.evict == [] {
        EverythingKept(p, target, running, costs, d);
      }
      if Coexist(p, [target] + running) {
        NothingToEvict(p, target, running, costs, d);
      }
    } else if target !in running {
      NothingRunning(p, target, costs, d);
    }
  }

  lemma NothingRunning(p: Program, target: string, costs: map<string, int>, d: Decision)
    requires Solved(p, target, [], costs, d)
    ensures d.evict == []
  {
    if exists i, s :: Candidate(p, target, i, s) {
      var i, s :| Cheapest(p, target, [], costs, i, s) && Reports(p, [], costs, d, i, s);
    }
  }

  lemma EverythingKept(p: Program, target: string, running: seq<string>, costs: map<string, int>, d: Decision)
    requires Solved(p, target, running, costs, d) && target !in running && running != []
    requires d.evict == [] && Elements([target] + running) == {target} + Elements(running)
    ensures Coexist(p, [target] + running)
  {
    var i, s :| Cheapest(p, target, running, costs, i, s) && Reports(p, running, costs, d, i, s);
    WithoutNothing(running, s);
    assert Contained(p.sets[i].root, [target] + running);
  }

  lemma NothingToEvict(p: Program, target: string, running: seq<string>, costs: map<string, int>, d: Decision)
    requires forall m | m in costs :: costs[m] > 0
    requires Solved(p, target, running, costs, d) && target !in running
    requires Coexist(p, [target] + running) && Elements([target] + running) == {target} + Elements(running)
    ensures d.evict == []
  {
    var j :| 0 <= j < |p.sets| && Contained(p.sets[j].root, [target] + running);
    var t :| t in Expansion(p.sets[j].root) && Elements([target] + running) <= t;
    assert Candidate(p, target, j, t);
    var i, s :| Cheapest(p, target, running, costs, i, s) && Reports(p, running, costs, d, i, s);
    FreeIffKept(costs, running, t);
    FreeIffKept(costs, running, s);
    WithoutNothing(running, s);
  }

  lemma WithoutNothing(running: seq<string>, kept: set<string>)
    ensures Without(running, kept) == [] <==> Elements(running) <= kept
  {
    WithoutElements(running, kept);
    NoElements(Without(running, kept));
  }

  lemma {:induction false} FreeIffKept(costs: map<string, int>, running: seq<string>, kept: set<string>)
    requires forall m | m in costs :: costs[m] > 0
    ensures Cost(costs, running, kept) >= 0
    ensures Cost(costs, running, kept) == 0 <==> Elements(running) <= kept
  {
    if running != [] {
      var n := |running| - 1;
      FreeIffKept(costs, running[..n], kept);
      assert running == running[..n] + [running[n]];
      ElementsConcat(running[..n], [running[n]]);
    }
  }
}
