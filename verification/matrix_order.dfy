/** Depth-first ordering of named sets, dependencies first. */
module MatrixOrder {
  import opened Collections

  type Deps = map<string, seq<string>>

  /** What a name depends on; a missing name depends on nothing. */
  function DepsOf(deps: Deps, name: string): seq<string> {
    if name in deps then deps[name] else []
  }

  /** Each name of the walk depends directly on the next. */
  ghost predicate Chain(deps: Deps, walk: seq<string>) {
    forall i | 0 <= i < |walk| - 1 :: walk[i + 1] in DepsOf(deps, walk[i])
  }

  ghost predicate Cycle(deps: Deps, walk: seq<string>) {
    |walk| >= 2 && walk[0] == walk[|walk| - 1] && Chain(deps, walk)
  }

  /** Every name once, and behind everything it depends on. */
  ghost predicate Ordered(deps: Deps, order: seq<string>) {
    && (forall i, j | 0 <= i < j < |order| :: order[i] != order[j])
    && (forall k | 0 <= k < |order| :: Elements(DepsOf(deps, order[k])) <= Elements(order[..k]))
  }

  /** A set of names that nothing depends out of. */
  ghost predicate ClosedUnder(deps: Deps, names: set<string>) {
    forall n | n in names :: Elements(DepsOf(deps, n)) <= names
  }

  /** Following a chain from an ordered name leads to ever earlier positions. */
  lemma {:induction false} ChainDescends(deps: Deps, order: seq<string>, walk: seq<string>, k: nat)
    requires Ordered(deps, order) && Chain(deps, walk) && |walk| >= 2
    requires k < |order| && order[k] == walk[0]
    ensures walk[|walk| - 1] in order[..k]
  {
    assert walk[1] in Elements(DepsOf(deps, order[k]));
    assert walk[1] in order[..k];
    var j :| 0 <= j < k && order[j] == walk[1];
    if |walk| == 2 {
      assert walk[|walk| - 1] == order[j];
    } else {
      assert Chain(deps, walk[1..]) by {
        forall i | 0 <= i < |walk[1..]| - 1 ensures walk[1..][i + 1] in DepsOf(deps, walk[1..][i]) {
          assert walk[1..][i] == walk[i + 1] && walk[1..][i + 1] == walk[i + 2];
        }
      }
      ChainDescends(deps, order, walk[1..], j);
      assert order[..j] <= order[..k];
    }
  }

  /** An ordering leaves no cycle through the ordered names. */
  lemma OrderedIsAcyclic(deps: Deps, order: seq<string>, walk: seq<string>)
    requires Ordered(deps, order) && walk != [] && walk[0] in order
    ensures !Cycle(deps, walk)
  {
    if Cycle(deps, walk) {
      var k :| 0 <= k < |order| && order[k] == walk[0];
      ChainDescends(deps, order, walk, k);
      assert false;
    }
  }

  lemma OrderedNext(deps: Deps, order: seq<string>, name: string)
    requires Ordered(deps, order) && name !in order && Elements(DepsOf(deps, name)) <= Elements(order)
    ensures Ordered(deps, order + [name])
  {
    var next := order + [name];
    forall k | 0 <= k < |next| ensures Elements(DepsOf(deps, next[k])) <= Elements(next[..k]) {
      assert next[..k] == order[..k];
      assert order[..|order|] == order;
    }
  }

  lemma ChainNext(deps: Deps, path: seq<string>, name: string)
    requires Chain(deps, path) && (path != [] ==> name in DepsOf(deps, path[|path| - 1]))
    ensures Chain(deps, path + [name])
  {
  }

  lemma ChainFront(deps: Deps, path: seq<string>, name: string)
    requires Chain(deps, path + [name])
    ensures Chain(deps, path)
  {
    forall i | 0 <= i < |path| - 1 ensures path[i + 1] in DepsOf(deps, path[i]) {
      assert (path + [name])[i] == path[i] && (path + [name])[i + 1] == path[i + 1];
    }
  }

  lemma PathCloses(deps: Deps, path: seq<string>, name: string) returns (walk: seq<string>)
    requires Chain(deps, path) && name in path && name in DepsOf(deps, path[|path| - 1])
    ensures Cycle(deps, walk)
  {
    var i :| 0 <= i < |path| && path[i] == name;
    walk := path[i..] + [name];
    forall k | 0 <= k < |walk| - 1 ensures walk[k + 1] in DepsOf(deps, walk[k]) {
      assert walk[k] == path[i + k];
      if k < |walk| - 2 { assert walk[k + 1] == path[i + k + 1]; }
    }
  }

  /** A chain leads from one name to another. */
  ghost predicate Reaches(deps: Deps, a: string, b: string) {
    exists walk :: walk != [] && walk[0] == a && walk[|walk| - 1] == b && Chain(deps, walk)
  }

  lemma ReachesItself(deps: Deps, a: string)
    ensures Reaches(deps, a, a)
  {
    assert [a][0] == a && Chain(deps, [a]);
  }

  lemma ReachesOver(deps: Deps, a: string, b: string, c: string)
    requires b in DepsOf(deps, a) && Reaches(deps, b, c)
    ensures Reaches(deps, a, c)
  {
    var walk :| walk != [] && walk[0] == b && walk[|walk| - 1] == c && Chain(deps, walk);
    var longer := [a] + walk;
    forall i | 0 <= i < |longer| - 1 ensures longer[i + 1] in DepsOf(deps, longer[i]) {
      assert i > 0 ==> longer[i] == walk[i - 1];
    }
    assert longer[0] == a && longer[|longer| - 1] == c && Chain(deps, longer);
  }

  /** From position n on, only names that name reaches were added. */
  ghost predicate AddedBy(deps: Deps, name: string, order: seq<string>, n: nat) {
    forall k | n <= k < |order| :: Reaches(deps, name, order[k])
  }

  /** The first definitions come first: with everything they reach they fill a front of the order. */
  ghost predicate FillsFront(deps: Deps, names: seq<string>, order: seq<string>) {
    exists m :: 0 <= m <= |order| && IsFront(deps, names, order[..m])
  }

  ghost predicate ReachedFrom(deps: Deps, names: seq<string>, x: string) {
    exists n :: n in names && Reaches(deps, n, x)
  }

  ghost predicate IsFront(deps: Deps, names: seq<string>, front: seq<string>) {
    && Elements(names) <= Elements(front)
    && forall k | 0 <= k < |front| :: ReachedFrom(deps, names, front[k])
  }

  // ----- the depth-first order

  /** The order with a name behind it, right behind its dependencies in their order; nothing is listed twice. */
  ghost function PostOrder(deps: Deps, path: set<string>, name: string, order: seq<string>): seq<string>
    decreases deps.Keys - path, 0
  {
    if name in order || name in path then order
    else if name !in deps then order + [name]
    else PostOrderAll(deps, path + {name}, deps[name], order) + [name]
  }

  ghost function PostOrderAll(deps: Deps, path: set<string>, names: seq<string>, order: seq<string>): seq<string>
    decreases deps.Keys - path, |names| + 1
  {
    if names == [] then order
    else
      var n := |names| - 1;
      PostOrder(deps, path, names[n], PostOrderAll(deps, path, names[..n], order))
  }

  lemma PostOrderNext(deps: Deps, path: set<string>, names: seq<string>, k: nat, order: seq<string>)
    requires k < |names|
    ensures PostOrderAll(deps, path, names[..k + 1], order)
            == PostOrder(deps, path, names[k], PostOrderAll(deps, path, names[..k], order))
  {
    assert names[..k + 1][..k] == names[..k];
  }

  lemma PostOrderVisit(deps: Deps, path: set<string>, name: string, order: seq<string>)
    requires name !in order && name !in path
    ensures PostOrder(deps, path, name, order)
            == PostOrderAll(deps, path + {name}, DepsOf(deps, name), order) + [name]
  {
  }

  const VISITING := 1
  const VISITED := 2

  ghost function Marked(state: map<string, int>, mark: int): set<string> {
    set n | n in state && state[n] == mark
  }

  class TopoSorter {
    const deps: Deps
    var state: map<string, int>
    var order: seq<string>

    /** path: the names being visited, each depending on the next. */
    ghost predicate Valid(path: seq<string>)
      reads this
    {
      && Ordered(deps, order) && Chain(deps, path)
      && Elements(path) == Marked(state, VISITING)
      && Elements(order) == Marked(state, VISITED)
      && state.Keys == Elements(path) + Elements(order)
    }

    constructor (deps: Deps)
      ensures Valid([]) && order == [] && this.deps == deps
    {
      this.deps := deps;
      state := map[];
      order := [];
    }

    method Visit(name: string, ghost path: seq<string>, ghost names: set<string>) returns (ok: bool)
      requires Valid(path) && ClosedUnder(deps, names) && name in names
      requires path != [] ==> name in DepsOf(deps, path[|path| - 1])
      modifies this
      ensures ok ==> Valid(path) && name in Elements(order)
      ensures ok ==> old(order) <= order && AddedBy(deps, name, order, |old(order)|)
      ensures ok ==> Elements(order) <= Elements(old(order)) + names
      ensures ok ==> order == PostOrder(deps, Elements(path), name, old(order))
      ensures !ok ==> exists walk :: Cycle(deps, walk)
      decreases names - state.Keys, 0
    {
      if name in state && state[name] == VISITING {
        assert name in Elements(path);
        ghost var walk := PathCloses(deps, path, name);
        return false;
      }
      if name in state && state[name] == VISITED {
        assert name in Elements(order);
        return true;
      }
      PostOrderVisit(deps, Elements(path), name, order);
      ElementsConcat(path, [name]);
      assert Elements(path + [name]) == Elements(path) + {name};
      Enter(name, path);
      assert name in names - old(state.Keys) && name !in names - state.Keys;
      ok := VisitDependencies(name, path, names);
      if ok {
        AddedLast(deps, name, order, |old(order)|);
        Finish(name, path);
      }
    }

    /** Visits a defined set from the outside, unless it is listed already. */
    method VisitDefined(name: string) returns (ok: bool)
      requires Valid([]) && ClosedUnder(deps, deps.Keys) && name in deps && Elements(order) <= deps.Keys
      modifies this
      ensures ok ==> Valid([]) && name in Elements(order) && Elements(order) <= deps.Keys
      ensures ok ==> old(order) <= order && AddedBy(deps, name, order, |old(order)|)
      ensures ok ==> order == PostOrder(deps, {}, name, old(order))
      ensures !ok ==> exists walk :: Cycle(deps, walk)
    {
      ghost var none: seq<string> := [];
      assert Elements(none) == {};
      ok := true;
      if name !in state {
        ok := Visit(name, none, deps.Keys);
      } else {
        assert name in Elements(order);
      }
    }

    /** Visits what a set depends on, one after the other. */
    method VisitDependencies(name: string, ghost path: seq<string>, ghost names: set<string>) returns (ok: bool)
      requires Valid(path + [name]) && ClosedUnder(deps, names) && name in names
      modifies this
      ensures ok ==> Valid(path + [name]) && Elements(DepsOf(deps, name)) <= Elements(order)
      ensures ok ==> old(order) <= order && AddedBy(deps, name, order, |old(order)|)
      ensures ok ==> Elements(order) <= Elements(old(order)) + names
      ensures ok ==> order == PostOrderAll(deps, Elements(path + [name]), DepsOf(deps, name), old(order))
      ensures !ok ==> exists walk :: Cycle(deps, walk)
      decreases names - state.Keys, 2
    {
      var ds := DepsOf(deps, name);
      ghost var within, start := Elements(path + [name]), order;
      for k := 0 to |ds|
        invariant Valid(path + [name]) && old(state.Keys) <= state.Keys
        invariant Elements(order) <= Elements(start) + names && Listing(deps, name, k, within, start, order)
      {
        var visited := VisitDependency(name, path, names, k, start);
        if !visited { return false; }
      }
      assert ds[..|ds|] == ds;
      ok := true;
    }

    method VisitDependency(name: string, ghost path: seq<string>, ghost names: set<string>, k: nat,
                           ghost start: seq<string>) returns (ok: bool)
      requires Valid(path + [name]) && ClosedUnder(deps, names) && name in names && k < |DepsOf(deps, name)|
      requires Elements(order) <= Elements(start) + names
      requires Listing(deps, name, k, Elements(path + [name]), start, order)
      modifies this
      ensures ok ==> Valid(path + [name]) && old(state.Keys) <= state.Keys
      ensures ok ==> Elements(order) <= Elements(start) + names
      ensures ok ==> Listing(deps, name, k + 1, Elements(path + [name]), start, order)
      ensures !ok ==> exists walk :: Cycle(deps, walk)
      decreases names - state.Keys, 1
    {
      var d := DepsOf(deps, name)[k];
      assert d in Elements(DepsOf(deps, name));
      ghost var before := order;
      ok := Visit(d, path + [name], names);
      if ok {
        assert order[..|before|] == before;
        FrontElements(before, order);
        ListingNext(deps, name, k, Elements(path + [name]), start, before, order);
      }
    }

    /** Marks a set as being visited. */
    method Enter(name: string, ghost path: seq<string>)
      requires Valid(path) && name !in state
      requires path != [] ==> name in DepsOf(deps, path[|path| - 1])
      modifies this
      ensures Valid(path + [name]) && order == old(order) && state.Keys == old(state.Keys) + {name}
    {
      state := state[name := VISITING];
      ChainNext(deps, path, name);
      ElementsConcat(path, [name]);
      assert Marked(state, VISITING) == Marked(old(state), VISITING) + {name};
      assert Marked(state, VISITED) == Marked(old(state), VISITED);
    }

    /** Marks a set as visited and puts it last in the order. */
    method Finish(name: string, ghost path: seq<string>)
      requires Valid(path + [name]) && name !in Elements(path)
      requires Elements(DepsOf(deps, name)) <= Elements(order)
      modifies this
      ensures Valid(path) && order == old(order) + [name] && state.Keys == old(state.Keys)
      ensures Elements(order) == Elements(old(order)) + {name}
    {
      ElementsConcat(path, [name]);
      assert name in Marked(state, VISITING) && name !in Elements(order);
      OrderedNext(deps, order, name);
      ChainFront(deps, path, name);
      ElementsConcat(order, [name]);
      MarkVisited(state, name);
      state := state[name := VISITED];
      order := order + [name];
    }
  }

  lemma MarkVisited(state: map<string, int>, name: string)
    requires name in state && state[name] == VISITING
    ensures Marked(state[name := VISITED], VISITING) == Marked(state, VISITING) - {name}
    ensures Marked(state[name := VISITED], VISITED) == Marked(state, VISITED) + {name}
  {
  }

  lemma AddedLast(deps: Deps, name: string, order: seq<string>, n: nat)
    requires n <= |order| && AddedBy(deps, name, order, n)
    ensures AddedBy(deps, name, order + [name], n)
  {
    ReachesItself(deps, name);
  }

  lemma AddedThrough(deps: Deps, name: string, d: string, order: seq<string>, n: nat, m: nat)
    requires n <= m <= |order| && d in DepsOf(deps, name)
    requires AddedBy(deps, name, order[..m], n) && AddedBy(deps, d, order, m)
    ensures AddedBy(deps, name, order, n)
  {
    forall k | n <= k < |order| ensures Reaches(deps, name, order[k]) {
      if k < m {
        assert order[..m][k] == order[k];
      } else {
        ReachesOver(deps, name, d, order[k]);
      }
    }
  }

  /** What visiting the first k dependencies of a set has added to the order. */
  ghost predicate Listing(deps: Deps, name: string, k: nat, within: set<string>, start: seq<string>,
                          order: seq<string>) {
    var ds := DepsOf(deps, name);
    && k <= |ds| && start <= order && Elements(ds[..k]) <= Elements(order)
    && AddedBy(deps, name, order, |start|) && order == PostOrderAll(deps, within, ds[..k], start)
  }

  lemma ListingNext(deps: Deps, name: string, k: nat, within: set<string>, start: seq<string>, before: seq<string>,
                    order: seq<string>)
    requires Listing(deps, name, k, within, start, before) && k < |DepsOf(deps, name)|
    requires before <= order && DepsOf(deps, name)[k] in Elements(order)
    requires AddedBy(deps, DepsOf(deps, name)[k], order, |before|)
    requires order == PostOrder(deps, within, DepsOf(deps, name)[k], before)
    ensures Listing(deps, name, k + 1, within, start, order)
  {
    var ds := DepsOf(deps, name);
    FrontElements(before, order);
    ElementsNext(ds, k);
    assert order[..|before|] == before;
    AddedThrough(deps, name, ds[k], order, |start|, |before|);
    PostOrderNext(deps, within, ds, k, start);
  }

  lemma FrontElements(front: seq<string>, s: seq<string>)
    requires front <= s
    ensures Elements(front) <= Elements(s)
  {
  }

  lemma ElementsNext(s: seq<string>, k: nat)
    requires k < |s|
    ensures Elements(s[..k + 1]) == Elements(s[..k]) + {s[k]}
  {
    assert s[..k + 1] == s[..k] + [s[k]];
    ElementsConcat(s[..k], [s[k]]);
  }

  /** Orders the defined names and what they reach; fails exactly when the references contain a cycle. */
  method TopologicalOrder(names: seq<string>, deps: Deps) returns (ok: bool, order: seq<string>)
    requires ClosedUnder(deps, deps.Keys) && Elements(names) <= deps.Keys
    requires forall n | n in deps && deps[n] != [] :: n in names
    ensures ok <==> forall walk :: !Cycle(deps, walk)
    ensures ok ==> Ordered(deps, order) && Elements(names) <= Elements(order) <= deps.Keys
    ensures ok ==> order == PostOrderAll(deps, {}, names, [])
    ensures ok ==> forall i | 0 <= i <= |names| :: FillsFront(deps, names[..i], order)
  {
    var sorter := new TopoSorter(deps);
    assert IsFront(deps, names[..0], sorter.order[..0]);
    for i := 0 to |names|
      invariant fresh(sorter) && sorter.deps == deps && sorter.Valid([])
      invariant Elements(sorter.order) <= deps.Keys && Sorting(deps, names, i, sorter.order)
    {
      assert names[i] in Elements(names);
      ghost var before := sorter.order;
      var visited := sorter.VisitDefined(names[i]);
      if !visited { return false, []; }
      SortingNext(deps, names, i, before, sorter.order);
    }
    assert names[..|names|] == names;
    AllAcyclic(names, deps, sorter.order);
    return true, sorter.order;
  }

  /** What sorting the first i names has made of the order. */
  ghost predicate Sorting(deps: Deps, names: seq<string>, i: nat, order: seq<string>) {
    && i <= |names| && Elements(names[..i]) <= Elements(order) && IsFront(deps, names[..i], order)
    && order == PostOrderAll(deps, {}, names[..i], [])
    && forall k | 0 <= k <= i :: FillsFront(deps, names[..k], order)
  }

  lemma SortingNext(deps: Deps, names: seq<string>, i: nat, before: seq<string>, order: seq<string>)
    requires Sorting(deps, names, i, before) && i < |names| && before <= order && names[i] in Elements(order)
    requires AddedBy(deps, names[i], order, |before|) && order == PostOrder(deps, {}, names[i], before)
    ensures Sorting(deps, names, i + 1, order)
  {
    FrontElements(before, order);
    ElementsNext(names, i);
    FrontsGrow(deps, names, i, before, order);
    PostOrderNext(deps, {}, names, i, []);
  }

  lemma FrontsGrow(deps: Deps, names: seq<string>, i: nat, before: seq<string>, after: seq<string>)
    requires i < |names| && before <= after && AddedBy(deps, names[i], after, |before|)
    requires IsFront(deps, names[..i], before) && Elements(names[..i + 1]) <= Elements(after)
    requires forall k | 0 <= k <= i :: FillsFront(deps, names[..k], before)
    ensures IsFront(deps, names[..i + 1], after)
    ensures forall k | 0 <= k <= i + 1 :: FillsFront(deps, names[..k], after)
  {
    assert names[..i + 1][i] == names[i];
    forall k | 0 <= k < |after| ensures ReachedFrom(deps, names[..i + 1], after[k]) {
      if k < |before| {
        assert ReachedFrom(deps, names[..i], before[k]);
        var n :| n in names[..i] && Reaches(deps, n, before[k]);
        assert n in names[..i + 1];
      } else {
        assert names[i] in names[..i + 1];
      }
    }
    assert after[..|after|] == after;
    forall k | 0 <= k <= i ensures FillsFront(deps, names[..k], after) {
      var m :| 0 <= m <= |before| && IsFront(deps, names[..k], before[..m]);
      assert before[..m] == after[..m];
    }
  }

  lemma AllAcyclic(names: seq<string>, deps: Deps, order: seq<string>)
    requires forall n | n in deps && deps[n] != [] :: n in names
    requires Ordered(deps, order) && Elements(names) <= Elements(order)
    ensures forall walk :: !Cycle(deps, walk)
  {
    forall walk ensures !Cycle(deps, walk) {
      if Cycle(deps, walk) {
        assert walk[1] in DepsOf(deps, walk[0]);
        assert walk[0] in Elements(names);
        OrderedIsAcyclic(deps, order, walk);
      }
    }
  }
}
