/** A tie that pruning decides otherwise than the order of the full expansion does: a choice whose first alternative
    gives way to a later one inside it, combined with an operand that makes the two equal again. */
module MatrixReordered {
  import opened Collections
  import opened MatrixNodes
  import opened MatrixTraversal
  import opened MatrixSolver
  import opened MatrixTies

  function Inner(a: string, c: string): Node {
    And([Leaf(a), Leaf(c)])
  }

  function Outer(a: string, b: string, c: string): Node {
    Or([Leaf(a), Leaf(b), Inner(a, c)])
  }

  /** `(a | b | (a & c)) & c` */
  function Reordered(a: string, b: string, c: string): Node {
    And([Outer(a, b, c), Leaf(c)])
  }

  lemma {:induction false} EachOfNothing(ts: seq<set<string>>)
    ensures Each({}, ts) == ts
  {
    if ts != [] {
      var n := |ts| - 1;
      EachOfNothing(ts[..n]);
      assert {} + ts[n] == ts[n];
    }
  }

  lemma PairsOfOne(s: set<string>, ts: seq<set<string>>)
    ensures Pairs([s], ts) == Each(s, ts)
  {
    assert [s][..0] == [] && Pairs([], ts) == [];
  }

  lemma PairsNext(ss: seq<set<string>>, s: set<string>, t: set<string>)
    ensures Pairs(ss + [s], [t]) == Pairs(ss, [t]) + [s + t]
  {
    assert (ss + [s])[..|ss|] == ss && [t][..0] == [];
    assert Each(s, []) == [] && Each(s, [t]) == [s + t];
  }

  lemma AndOfTwo(x: Node, y: Node)
    ensures LeftMajorAnd([x, y]) == Pairs(LeftMajor(x), LeftMajor(y))
  {
    assert [x, y][..1] == [x] && [x][..0] == [];
    PairsOfOne({}, LeftMajor(x));
    EachOfNothing(LeftMajor(x));
    assert LeftMajorAnd([]) == [{}] && LeftMajorAnd([x]) == LeftMajor(x);
  }

  lemma OrOfTwo(x: Node, y: Node)
    ensures LeftMajorOr([x, y]) == LeftMajor(x) + LeftMajor(y)
  {
    OrNext([], x);
    OrNext([x], y);
    assert [] + [x] == [x] && [x] + [y] == [x, y];
    assert LeftMajorOr([]) + LeftMajor(x) == LeftMajor(x);
  }

  lemma OrOfThree(x: Node, y: Node, z: Node)
    ensures LeftMajorOr([x, y, z]) == LeftMajor(x) + LeftMajor(y) + LeftMajor(z)
  {
    OrOfTwo(x, y);
    OrNext([x, y], z);
    assert [x, y] + [z] == [x, y, z];
  }

  lemma OrNext(cs: seq<Node>, c: Node)
    ensures LeftMajorOr(cs + [c]) == LeftMajorOr(cs) + LeftMajor(c)
  {
    assert (cs + [c])[..|cs|] == cs;
  }

  lemma InnerExpansion(a: string, c: string)
    ensures LeftMajor(Inner(a, c)) == [{a, c}]
  {
    AndOfTwo(Leaf(a), Leaf(c));
    assert LeftMajor(Leaf(a)) == [{a}] && LeftMajor(Leaf(c)) == [{c}];
    assert LeftMajor(Inner(a, c)) == LeftMajorAnd([Leaf(a), Leaf(c)]);
    PairsOfOne({a}, [{c}]);
    assert [{c}][..0] == [] && Each({a}, []) == [] && Each({a}, [{c}]) == [{a} + {c}];
    assert {a} + {c} == {a, c};
  }

  /** The expansion meets the first choice with c first. */
  lemma ReorderedExpansion(a: string, b: string, c: string)
    ensures LeftMajor(Reordered(a, b, c)) == [{a, c}, {b, c}, {a, c}]
  {
    InnerExpansion(a, c);
    OrOfThree(Leaf(a), Leaf(b), Inner(a, c));
    AndOfTwo(Outer(a, b, c), Leaf(c));
    var one, two := [{a}], [{a}] + [{b}];
    assert LeftMajor(Outer(a, b, c)) == two + [{a, c}];
    PairsNext([], {a}, {c});
    assert [] + [{a}] == one && Pairs([], [{c}]) == [] && {a} + {c} == {a, c};
    PairsNext(one, {b}, {c});
    assert {b} + {c} == {b, c};
    PairsNext(two, {a, c}, {c});
    assert {a, c} + {c} == {a, c};
  }

  /** A choice that keeps all it names. */
  ghost function Whole(s: set<string>): Kept {
    Kept(s, s)
  }

  lemma InsertApart(ks: seq<Kept>, c: Kept)
    requires forall i | 0 <= i < |ks| :: !(c.seen <= ks[i].seen) && !(ks[i].seen <= c.seen)
    ensures Insert(ks, c) == ks + [c]
  {
    BeyondAll(ks, c.seen);
  }

  lemma {:induction false} BeyondAll(ks: seq<Kept>, s: set<string>)
    requires forall i | 0 <= i < |ks| :: !(ks[i].seen <= s)
    ensures Beyond(ks, s) == ks
  {
    if ks != [] { BeyondAll(ks[..|ks| - 1], s); }
  }

  lemma InsertAllNext(ks: seq<Kept>, more: seq<Kept>, c: Kept)
    ensures InsertAll(ks, more + [c]) == Insert(InsertAll(ks, more), c)
  {
    assert (more + [c])[..|more|] == more;
  }

  lemma InnerTraversal(a: string, b: string, c: string)
    requires a != b && a != c && b != c && "" !in {a, b, c}
    ensures Traversal({a, b, c}, Inner(a, c)) == [Whole({a, c})]
  {
    assert OperandsApart({a, b, c}, Leaf(a)) && OperandsApart({a, b, c}, Leaf(c));
    assert NoneShared({a, b, c}, [Leaf(a), Leaf(c)]);
    TraversalIsPruned({a, b, c}, Inner(a, c));
    InnerExpansion(a, c);
    PrunedOne({a, b, c}, {a, c});
    assert KeptOf({a, b, c}, {a, c}) == Whole({a, c});
  }

  /** Inside the choice, the first alternative gives way to the last. */
  lemma OuterTraversal(a: string, b: string, c: string)
    requires a != b && a != c && b != c && "" !in {a, b, c}
    ensures Traversal({a, b, c}, Outer(a, b, c)) == [Whole({b}), Whole({a, c})]
  {
    var r, x, y, z := {a, b, c}, Whole({a}), Whole({b}), Whole({a, c});
    assert KeptOf(r, {a}) == x && KeptOf(r, {b}) == y;
    InnerTraversal(a, b, c);
    var cs := [Leaf(a), Leaf(b), Inner(a, c)];
    assert cs[..2] == [Leaf(a), Leaf(b)] && cs[..2][..1] == [Leaf(a)] && [Leaf(a)][..0] == [];
    InsertAllNext([], [], x);
    InsertApart([], x);
    assert TraverseOr(r, [Leaf(a)]) == [x];
    InsertAllNext([x], [], y);
    InsertApart([x], y);
    assert TraverseOr(r, cs[..2]) == [x] + [y];
    InsertAllNext([x] + [y], [], z);
    InsertOver(x, y, z);
  }

  lemma InsertOver(x: Kept, y: Kept, z: Kept)
    requires x.seen < z.seen && !(y.seen <= z.seen) && !(z.seen <= y.seen)
    ensures Insert([x] + [y], z) == [y, z]
  {
    assert ([x] + [y])[..1] == [x] && [x][..0] == [];
    assert Beyond([], z.seen) == [] && Beyond([x], z.seen) == [];
    assert Beyond([x] + [y], z.seen) == [y];
  }

  /** The traversal meets the second choice with c first. */
  lemma ReorderedTraversal(a: string, b: string, c: string)
    requires a != b && a != c && b != c && "" !in {a, b, c}
    ensures Traversal({a, b, c}, Reordered(a, b, c)) == [Whole({b, c}), Whole({a, c})]
  {
    var r, y, z, w := {a, b, c}, Whole({b}), Whole({a, c}), Whole({c});
    OuterTraversal(a, b, c);
    assert KeptOf(r, {c}) == w;
    var cs := [Outer(a, b, c), Leaf(c)];
    assert cs[..1] == [Outer(a, b, c)] && cs[..1][..0] == [];
    ProductWithNothing([y, z]);
    assert TraverseAnd(r, cs[..1]) == [y, z];
    assert {b} + {c} == {b, c} && {a, c} + {c} == {a, c};
    assert b in Unite(y, w).seen && a in Unite(z, w).seen;
    ProductOfTwo(y, z, w);
    assert Traversal(r, Reordered(a, b, c)) == TraverseAnd(r, cs);
    assert TraverseAnd(r, cs) == Product(TraverseAnd(r, cs[..1]), Traversal(r, Leaf(c)));
  }

  lemma ProductOfTwo(y: Kept, z: Kept, w: Kept)
    requires !(Unite(y, w).seen <= Unite(z, w).seen) && !(Unite(z, w).seen <= Unite(y, w).seen)
    ensures Product([y, z], [w]) == [Unite(y, w), Unite(z, w)]
  {
    ProductIsPruned([y, z], [w]);
    RowsOfTwo(y, z, w);
    TwoIncomparables(Unite(y, w), Unite(z, w));
  }

  lemma TwoIncomparables(u: Kept, v: Kept)
    requires !(u.seen <= v.seen) && !(v.seen <= u.seen)
    ensures InsertAll([], [u, v]) == [u, v]
  {
    InsertIncomparables([u, v]);
  }

  lemma RowsOfTwo(y: Kept, z: Kept, w: Kept)
    ensures Rows([y, z], [w]) == [Unite(y, w), Unite(z, w)]
  {
    RowOfOne(y, w);
    RowOfOne(z, w);
    assert [y, z][..1] == [y] && [y][..0] == [] && Rows([], [w]) == [];
    assert Rows([y], [w]) == [Unite(y, w)];
  }

  lemma RowOfOne(y: Kept, w: Kept)
    ensures Row(y, [w]) == [Unite(y, w)]
  {
    assert [w][..0] == [] && Row(y, []) == [];
  }

  /** Uniting incomparable choices with nothing leaves them as they are. */
  lemma ProductWithNothing(ks: seq<Kept>)
    requires Incomparable(ks)
    ensures Product([Kept({}, {})], ks) == ks
  {
    RowOfNothing(ks);
    assert [Kept({}, {})][..0] == [] && Product([], ks) == [];
    InsertIncomparables(ks);
  }

  lemma {:induction false} RowOfNothing(ks: seq<Kept>)
    ensures Row(Kept({}, {}), ks) == ks
  {
    if ks != [] {
      var n := |ks| - 1;
      RowOfNothing(ks[..n]);
      assert {} + ks[n].seen == ks[n].seen && {} + ks[n].models == ks[n].models;
    }
  }

  lemma {:induction false} InsertIncomparables(ks: seq<Kept>)
    requires Incomparable(ks)
    ensures InsertAll([], ks) == ks
  {
    if ks != [] {
      var n := |ks| - 1;
      InsertIncomparables(ks[..n]);
      InsertApart(ks[..n], ks[n]);
    }
  }

  /** With target c and a and b running at the same price, the decision keeps b, although the first cheapest set of the
      expansion keeps a. */
  lemma TieIsReordered(p: Program, a: string, b: string, c: string, d: Decision)
    requires a != b && a != c && b != c && "" !in {a, b, c}
    requires |p.sets| == 1 && p.sets[0].root == Reordered(a, b, c) && Picked(p, c, [a, b], map[], d)
    ensures Elements(d.targetSet) == {b, c} && d.evict == [a]
    ensures FirstInExpansion(p, c, [a, b], map[], 0, 0) && LeftMajor(p.sets[0].root)[0] == {a, c}
  {
    RelevantOfThree(a, b, c);
    ReorderedTraversal(a, b, c);
    PricesOfTwo(a, b, {b, c}, {a, c});
    FirstOfTwo(p, c, [a, b], map[], d, Whole({b, c}), Whole({a, c}));
    FirstOfReordered(p, a, b, c);
  }

  lemma RelevantOfThree(a: string, b: string, c: string)
    ensures Relevant(c, [a, b]) == {a, b, c}
  {
    assert [a, b] == [a] + [b];
    ElementsConcat([a], [b]);
    assert Elements([a]) == {a} && Elements([b]) == {b};
  }

  lemma FirstOfTwo(p: Program, target: string, running: seq<string>, costs: map<string, int>, d: Decision, y: Kept,
                   z: Kept)
    requires |p.sets| == 1 && StatesOf(p, Relevant(target, running), 0) == [y, z]
    requires target in y.seen && target in z.seen && Cost(costs, running, y.seen) == Cost(costs, running, z.seen)
    requires Picked(p, target, running, costs, d)
    ensures Elements(d.targetSet) == y.models && d.evict == Without(running, y.seen)
  {
    var r := Relevant(target, running);
    assert Yields(p, r, target, 0, 0);
    var i, k :| FirstCheapest(p, target, running, costs, i, k)
                && ReportsState(p, running, costs, d, i, StatesOf(p, r, i)[k]);
    assert i == 0 && (k == 0 || k == 1);
    NoEarlierTie(p, target, running, costs, i, k, 0, 0);
  }

  lemma NoEarlierTie(p: Program, target: string, running: seq<string>, costs: map<string, int>, i: int, k: int, j: int,
                     m: int)
    requires FirstCheapest(p, target, running, costs, i, k) && Yields(p, Relevant(target, running), target, j, m)
    requires Price(p, Relevant(target, running), target, running, costs, i, k)
             == Price(p, Relevant(target, running), target, running, costs, j, m)
    ensures !Before(j, m, i, k)
  {
  }

  lemma FirstOfReordered(p: Program, a: string, b: string, c: string)
    requires a != b && a != c && b != c && |p.sets| == 1 && p.sets[0].root == Reordered(a, b, c)
    ensures FirstInExpansion(p, c, [a, b], map[], 0, 0) && LeftMajor(p.sets[0].root)[0] == {a, c}
  {
    ReorderedExpansion(a, b, c);
    PricesOfTwo(a, b, {b, c}, {a, c});
    forall j, k | Offers(p, c, j, k) ensures CostAt(p, [a, b], map[], j, k) == 1 && !Before(j, k, 0, 0) {
      assert j == 0 && (k == 0 || k == 1 || k == 2);
    }
  }

  lemma PricesOfTwo(a: string, b: string, s: set<string>, t: set<string>)
    requires a != b && a !in s && b in s && a in t && b !in t
    ensures Cost(map[], [a, b], s) == 1 && Cost(map[], [a, b], t) == 1 && Without([a, b], s) == [a]
  {
    assert [a, b][..1] == [a] && [a][..0] == [];
    assert Cost(map[], [], s) == 0 && Cost(map[], [], t) == 0 && Without([], s) == [];
  }
}
