/** Two expressions whose choice is the configured costs' alone. */
module MatrixPrices {
  import opened Strings
  import opened Collections
  import opened MatrixNodes
  import opened MatrixSolver

  const TWO := Program([CompiledSet("first", "t & a", And([Leaf("t"), Leaf("a")]), []),
                        CompiledSet("second", "t & b", And([Leaf("t"), Leaf("b")]), [])], map[], 0)

  lemma PairExpansion(x: string, y: string)
    ensures Expansion(And([Leaf(x), Leaf(y)])) == {{x, y}}
    ensures Expansion(Or([Leaf(x), Leaf(y)])) == {{x}, {y}}
  {
    var cs := [Leaf(x), Leaf(y)];
    assert cs[..1] == [Leaf(x)] && cs[..1][..0] == [];
    assert Alternatives(cs[..1]) == {{x}} && Alternatives(cs) == {{x}, {y}};
    assert Combinations(cs[..1]) == {{x}} by {
      var none: set<string> := {};
      assert none + {x} == {x};
      assert Combinations(cs[..1]) == Join({none}, {{x}});
    }
    assert {x} + {y} == {x, y};
    assert Combinations(cs) == Join({{x}}, {{y}});
  }

  lemma OneOfTwo(x: string, y: string, kept: set<string>, costs: map<string, int>)
    requires x != y && x in costs && y in costs && kept * {x, y} == {x}
    ensures Without([x, y], kept) == [y] && Without([y, x], kept) == [y]
    ensures Cost(costs, [x, y], kept) == Cost(costs, [y, x], kept) == costs[y]
  {
    assert x in kept * {x, y} && y !in kept * {x, y};
    assert [x, y][..1] == [x] && [y, x][..1] == [y] && [x][..0] == [] && [y][..0] == [];
    assert Without([x], kept) == [] && Without([y], kept) == [y];
    assert Cost(costs, [x], kept) == 0 && Cost(costs, [y], kept) == costs[y];
  }

  lemma CandidatesOfTwo(j: int, s: set<string>)
    ensures Candidate(TWO, "t", j, s) <==> (j == 0 && s == {"t", "a"}) || (j == 1 && s == {"t", "b"})
  {
    PairExpansion("t", "a");
    PairExpansion("t", "b");
  }

  lemma CheapestOfTwo(costs: map<string, int>, i: int, s: set<string>)
    requires "a" in costs && "b" in costs && Cheapest(TWO, "t", ["a", "b"], costs, i, s)
    ensures if costs["a"] < costs["b"] then i == 1 && s == {"t", "b"} else i == 0 && s == {"t", "a"}
  {
    OneOfTwo("a", "b", {"t", "a"}, costs);
    OneOfTwo("b", "a", {"t", "b"}, costs);
    CandidatesOfTwo(0, {"t", "a"});
    CandidatesOfTwo(1, {"t", "b"});
    CandidatesOfTwo(i, s);
  }

  lemma SortedPair(x: string, y: string, models: seq<string>)
    requires StrictlySorted(models) && Less(x, y) && x != "" && y != ""
    ensures Elements(models) == {x, y} - {""} ==> models == [x, y]
  {
    if Elements(models) == {x, y} - {""} {
      assert StrictlySorted([x, y]);
      assert Elements([x, y]) == {x, y};
      SortedUnique(models, [x, y]);
    }
  }

  lemma BeforeTarget(x: string)
    requires x == "a" || x == "b"
    ensures Less(x, "t")
  {
    assert DiffersAt(x, "t", 0);
    LessIsFirstDifference(x, "t");
  }

  lemma ReportsPair(costs: map<string, int>, d: Decision, i: nat, kept: string, gone: string)
    requires i < 2 && kept in costs && gone in costs
    requires (kept == "a" && gone == "b") || (kept == "b" && gone == "a")
    requires Reports(TWO, ["a", "b"], costs, d, i, {"t", kept})
    ensures d == Decision([gone], [kept, "t"], TWO.sets[i].name, TWO.sets[i].dsl, costs[gone])
  {
    OneOfTwo(kept, gone, {"t", kept}, costs);
    BeforeTarget(kept);
    SortedPair(kept, "t", d.targetSet);
  }

  /** With a and b running, the target t takes the second expression exactly if a is configured cheaper than b. */
  lemma CheaperVictimGoes(costs: map<string, int>, d: Decision)
    requires "a" in costs && "b" in costs && Solved(TWO, "t", ["a", "b"], costs, d)
    ensures d == if costs["a"] < costs["b"] then Decision(["a"], ["b", "t"], "second", "t & b", costs["a"])
                 else Decision(["b"], ["a", "t"], "first", "t & a", costs["b"])
  {
    CandidatesOfTwo(0, {"t", "a"});
    var i, s :| Cheapest(TWO, "t", ["a", "b"], costs, i, s) && Reports(TWO, ["a", "b"], costs, d, i, s);
    CheapestOfTwo(costs, i, s);
    if i == 0 {
      ReportsPair(costs, d, 0, "a", "b");
    } else {
      ReportsPair(costs, d, 1, "b", "a");
    }
  }
}
