/** Compiling named DSL expressions. */
module MatrixCompile {
  import opened Options
  import opened Strings
  import opened Collections
  import opened BitMasks
  import opened MatrixDsl
  import opened MatrixParser
  import opened MatrixOrder
  import opened MatrixSimplify
  import opened MatrixLink
  import opened MatrixSolver
  import MatrixNodes
  import MatrixGrammar
  import opened MatrixSupport
  import opened MatrixSource
  import opened MatrixFamilies

  datatype Result<+T> = Ok(value: T) | Err

  // ----- what a program compiles

  /** The ordered names without a synthesized orphan set. */
  ghost function Selectable(order: seq<string>, synthesized: bool): seq<string> {
    if order == [] then []
    else
      var n := |order| - 1;
      Selectable(order[..n], synthesized) + if synthesized && order[n] == ORPHANS then [] else [order[n]]
  }

  /** A program set carries the k-th ordered name, its text, and the meaning of its expression. */
  ghost predicate Carries(env: Env, order: seq<string>, dsl: map<string, string>, k: nat, c: CompiledSet)
    requires Linkable(env, order) && k < |order|
  {
    && c.name == order[k] && c.name in dsl && c.dsl == dsl[c.name]
    && MatrixNodes.Expansion(c.root) == Meaning(LinkedSet(env, order, k))
    && MatrixNodes.Compact(c.root) && Branching(c.root)
  }

  /** The program lists the selectable names in order, each with the meaning of its expression. */
  ghost predicate Compiles(s: Source, env: Env, order: seq<string>, p: Program)
    requires Linkable(env, order)
  {
    && p.Valid() && ExactSupport(p)
    && Elements(order) <= env.Keys && s.env.Keys <= Elements(order)
    && |p.sets| == |Selectable(order, Synthesized(s))|
    && forall i | 0 <= i < |p.sets| ::
         && p.sets[i].name == Selectable(order, Synthesized(s))[i]
         && CarriesSome(env, order, s.dsl, p.sets[i])
  }

  ghost predicate CarriesSome(env: Env, order: seq<string>, dsl: map<string, string>, c: CompiledSet)
    requires Linkable(env, order)
  {
    exists k :: 0 <= k < |order| && Carries(env, order, dsl, k, c)
  }

  /** A model has a support bit in a set exactly when some described set contains it. */
  ghost predicate ExactSupport(p: Program) {
    forall i, m | 0 <= i < |p.sets| ::
      (m in p.modelBits && p.modelBits[m] in Bits(p.sets[i].support))
      <==> exists s :: s in MatrixNodes.Expansion(p.sets[i].root) && m in s
  }

  /** The set stands for the text that counts for its name and describes the family of that text. */
  ghost predicate CarriesText(defs: seq<Definition>, known: Families, c: CompiledSet) {
    && (exists j :: Counts(defs, j) && c.name == defs[j].name && c.dsl == defs[j].dsl)
    && c.name in known && MatrixNodes.Expansion(c.root) == known[c.name]
  }

  /** One set for each defined name, and each describes what the texts say. */
  ghost predicate MeansItsTexts(defs: seq<Definition>, c: Chars, resolve: Resolver, allModels: seq<string>,
                                p: Program) {
    && (forall i, j | 0 <= i < j < |p.sets| :: p.sets[i].name != p.sets[j].name)
    && (forall name :: name in Names(defs) <==> exists i :: 0 <= i < |p.sets| && p.sets[i].name == name)
    && exists known :: Describe(defs, c, resolve, allModels, known)
                       && forall i | 0 <= i < |p.sets| :: CarriesText(defs, known, p.sets[i])
  }

  // ----- reading the definitions

  /** The state the walks over the parsed expressions share. */
  class Walker {
    const resolve: Resolver
    const names: set<string>
    var seenModels: set<string>
    var orphansReferenced: bool
    var refs: seq<string>

    constructor (resolve: Resolver, names: set<string>)
      ensures this.resolve == resolve && this.names == names
      ensures seenModels == {} && !orphansReferenced && refs == []
    {
      this.resolve, this.names := resolve, names;
      seenModels, orphansReferenced, refs := {}, false, [];
    }

    /** Resolves the leaves of an expression and collects its references. */
    method Walk(e: Expr) returns (r: Option<Expr>)
      modifies this
      ensures r == Checked(e, resolve, names)
      ensures r.Some? ==> seenModels == old(seenModels) + LeafNames(r.value)
      ensures r.Some? ==> refs == WithNew(old(refs), RefSequence(r.value))
      ensures r.Some? ==> orphansReferenced == (old(orphansReferenced) || ORPHANS in RefNames(r.value))
      decreases e, 1
    {
      match e {
        case EmptyExpr => r := Some(e);
        case Name(id) =>
          match resolve(id) {
            case None => r := None;
            case Some(model) =>
              seenModels := seenModels + {model};
              r := Some(Name(model));
          }
        case SetRef(n) =>
          if n == ORPHANS { orphansReferenced := true; }
          if n !in names && n != ORPHANS { return None; }
          if n !in refs {
            refs := refs + [n];
          }
          assert [n][..0] == [];
          r := Some(e);
        case AndExpr(es) =>
          var fs := WalkAll(es);
          r := if fs == None then None else Some(AndExpr(fs.value));
        case OrExpr(es) =>
          var fs := WalkAll(es);
          r := if fs == None then None else Some(OrExpr(fs.value));
      }
    }

    method WalkAll(es: seq<Expr>) returns (r: Option<seq<Expr>>)
      modifies this
      ensures r == CheckedAll(es, resolve, names)
      ensures r.Some? ==> seenModels == old(seenModels) + LeafNamesIn(r.value)
      ensures r.Some? ==> refs == WithNew(old(refs), RefSequenceIn(r.value))
      ensures r.Some? ==> orphansReferenced == (old(orphansReferenced) || ORPHANS in RefNamesIn(r.value))
      decreases es, 0
    {
      var fs: seq<Expr> := [];
      for i := 0 to |es|
        invariant CheckedAll(es[..i], resolve, names) == Some(fs)
        invariant seenModels == old(seenModels) + LeafNamesIn(fs)
        invariant refs == WithNew(old(refs), RefSequenceIn(fs))
        invariant orphansReferenced == (old(orphansReferenced) || ORPHANS in RefNamesIn(fs))
      {
        assert es[..i + 1][..i] == es[..i];
        var f := Walk(es[i]);
        if f == None {
          CheckedPrefix(es, i + 1, resolve, names);
          return None;
        }
        assert (fs + [f.value])[..|fs|] == fs;
        WithNewConcat(old(refs), RefSequenceIn(fs), RefSequence(f.value));
        fs := fs + [f.value];
      }
      assert es[..|es|] == es;
      r := Some(fs);
    }
  }

  lemma {:induction false} CheckedPrefix(es: seq<Expr>, i: nat, resolve: Resolver, names: set<string>)
    requires i <= |es| && CheckedAll(es[..i], resolve, names) == None
    ensures CheckedAll(es, resolve, names) == None
  {
    if i < |es| {
      assert es[..|es| - 1][..i] == es[..i];
      CheckedPrefix(es[..|es| - 1], i, resolve, names);
    } else {
      assert es[..i] == es;
    }
  }

  /** The roots and dependencies Compile collects, for the source read so far. */
  ghost predicate Read(s: Source, roots: Env, dsl: map<string, string>, deps: Deps, w: Walker)
    reads w
  {
    && roots == s.env && dsl == s.dsl && w.seenModels == s.seen && w.orphansReferenced == s.orphans
    && ListsReferences(roots, deps)
  }

  method ReadDefinitions(defs: seq<Definition>, c: Chars, resolve: Resolver, names: set<string>)
      returns (ok: bool, roots: Env, dsl: map<string, string>, deps: Deps, w: Walker)
    requires c.Valid()
    ensures fresh(w) && ok == Gathered(defs, c, resolve, names).Some?
    ensures ok ==> Read(Gathered(defs, c, resolve, names).value, roots, dsl, deps, w)
  {
    roots, dsl, deps := map[], map[], map[];
    ok := true;
    w := new Walker(resolve, names);
    for i := 0 to |defs|
      invariant fresh(w) && w.resolve == resolve && w.names == names && ok
      invariant Gathered(defs[..i], c, resolve, names).Some?
      invariant Read(Gathered(defs[..i], c, resolve, names).value, roots, dsl, deps, w)
    {
      var d := defs[i];
      assert defs[..i + 1][..i] == defs[..i];
      var root := ReadDefinition(d, c, w);
      if root == None {
        GatheredPrefix(defs, i + 1, c, resolve, names);
        ok := false;
        return;
      }
      roots, dsl, deps := roots[d.name := root.value], dsl[d.name := d.dsl], deps[d.name := w.refs];
    }
    assert defs[..|defs|] == defs;
  }

  /** One definition, with its own list of references. */
  method ReadDefinition(d: Definition, c: Chars, w: Walker) returns (root: Option<Expr>)
    requires c.Valid()
    modifies w
    ensures root == Defined(d, c, w.resolve, w.names)
    ensures root.Some? ==> w.seenModels == old(w.seenModels) + LeafNames(root.value)
    ensures root.Some? ==> w.refs == Dependencies(root.value)
    ensures root.Some? ==> w.orphansReferenced == (old(w.orphansReferenced) || ORPHANS in RefNames(root.value))
  {
    w.refs := [];
    var e := ParseDsl(c, d.dsl);
    root := None;
    if e.Some? {
      root := w.Walk(e.value);
    }
  }

  lemma {:induction false} GatheredPrefix(defs: seq<Definition>, i: nat, c: Chars, resolve: Resolver,
                                          names: set<string>)
    requires i <= |defs| && Gathered(defs[..i], c, resolve, names) == None
    ensures Gathered(defs, c, resolve, names) == None
  {
    if i < |defs| {
      assert defs[..|defs| - 1][..i] == defs[..i];
      GatheredPrefix(defs[..|defs| - 1], i, c, resolve, names);
    } else {
      assert defs[..i] == defs;
    }
  }

  lemma {:induction false} CheckedPrintable(e: Expr, resolve: Resolver, names: set<string>)
    requires Printable(e) && Checked(e, resolve, names).Some?
    ensures Printable(Checked(e, resolve, names).value)
    ensures RefNames(Checked(e, resolve, names).value) <= names + {ORPHANS}
    decreases e, 1
  {
    match e
    case AndExpr(es) => CheckedPrintableAll(es, resolve, names);
    case OrExpr(es) => CheckedPrintableAll(es, resolve, names);
    case _ =>
  }

  lemma {:induction false} CheckedPrintableAll(es: seq<Expr>, resolve: Resolver, names: set<string>)
    requires (forall i | 0 <= i < |es| :: Printable(es[i])) && CheckedAll(es, resolve, names).Some?
    ensures var fs := CheckedAll(es, resolve, names).value;
            (forall i | 0 <= i < |fs| :: Printable(fs[i])) && RefNamesIn(fs) <= names + {ORPHANS}
    decreases es, 0
  {
    if es != [] {
      var k := |es| - 1;
      CheckedPrintableAll(es[..k], resolve, names);
      CheckedPrintable(es[k], resolve, names);
      RefNamesNext(CheckedAll(es[..k], resolve, names).value, Checked(es[k], resolve, names).value);
    }
  }

  lemma DefinitionOk(d: Definition, c: Chars, resolve: Resolver, names: set<string>)
    requires c.Valid() && Defined(d, c, resolve, names).Some?
    ensures var e := Defined(d, c, resolve, names).value;
            Printable(e) && RefNames(e) <= names + {ORPHANS}
  {
    MatrixGrammar.AcceptedIsWellFormed(c, d.dsl);
    MatrixGrammar.WellFormedIsPrintable(c, ParsedDsl(c, d.dsl).value);
    CheckedPrintable(ParsedDsl(c, d.dsl).value, resolve, names);
  }

  /** Gathered expressions can be written down, refer to defined names or the orphans, and carry their text. */
  lemma {:induction false} GatheredOk(defs: seq<Definition>, c: Chars, resolve: Resolver, names: set<string>)
    requires c.Valid() && Gathered(defs, c, resolve, names).Some?
    ensures Sourced(Gathered(defs, c, resolve, names).value, names, Names(defs))
  {
    if defs != [] {
      var d, front := defs[|defs| - 1], defs[..|defs| - 1];
      GatheredOk(front, c, resolve, names);
      DefinitionOk(d, c, resolve, names);
      SourcedNext(Gathered(front, c, resolve, names).value, names, Names(front), d,
                  Defined(d, c, resolve, names).value);
      assert defs == front + [d];
      assert Names(defs) == Names(front) + {d.name};
    }
  }

  ghost predicate Sourced(s: Source, names: set<string>, defined: set<string>) {
    && s.env.Keys == defined == s.dsl.Keys
    && forall n | n in s.env :: Printable(s.env[n]) && RefNames(s.env[n]) <= names + {ORPHANS}
                                && (ORPHANS in RefNames(s.env[n]) ==> s.orphans)
  }

  lemma SourcedNext(s: Source, names: set<string>, defined: set<string>, d: Definition, e: Expr)
    requires Sourced(s, names, defined) && Printable(e) && RefNames(e) <= names + {ORPHANS}
    ensures Sourced(Source(s.env[d.name := e], s.dsl[d.name := d.dsl], s.seen + LeafNames(e),
                           s.orphans || ORPHANS in RefNames(e)), names, defined + {d.name})
  {
    var env := s.env[d.name := e];
    forall n | n in env
      ensures Printable(env[n]) && RefNames(env[n]) <= names + {ORPHANS}
      ensures ORPHANS in RefNames(env[n]) ==> s.orphans || ORPHANS in RefNames(e)
    {
    }
  }

  // ----- simplification, in dependency order

  ghost function EmptyNames(roots: Env): set<string> {
    set n | n in roots && roots[n] == EmptyExpr
  }

  method SimplifyEmptyRefs(root: Expr, roots: Env) returns (r: Expr)
    ensures r == SimplifyExpr(root, EmptyNames(roots))
    decreases root, 1
  {
    match root {
      case SetRef(n) =>
        r := if n in roots && roots[n] == EmptyExpr then EmptyExpr else root;
      case AndExpr(es) =>
        var children := SimplifyChildren(es, roots);
        r := CollapseExpr(root, children);
      case OrExpr(es) =>
        var children := SimplifyChildren(es, roots);
        r := CollapseExpr(root, children);
      case _ => r := root;
    }
  }

  method SimplifyChildren(es: seq<Expr>, roots: Env) returns (children: seq<Expr>)
    ensures children == SimplifyExprs(es, EmptyNames(roots))
    decreases es, 0
  {
    children := [];
    for i := 0 to |es|
      invariant children == SimplifyExprs(es[..i], EmptyNames(roots))
    {
      assert es[..i + 1][..i] == es[..i];
      var child := SimplifyEmptyRefs(es[i], roots);
      if child != EmptyExpr {
        children := children + [child];
      }
    }
    assert es[..|es|] == es;
  }

  method SimplifyAll(before: Env, order: seq<string>) returns (roots: Env)
    requires Linkable(before, order)
    ensures SimplifiedEnv(before, roots, order, |order|)
  {
    roots := before;
    for i := 0 to |order|
      invariant SimplifiedEnv(before, roots, order, i)
      invariant forall k | i <= k < |order| :: roots[order[k]] == before[order[k]]
    {
      var root := SimplifyEmptyRefs(roots[order[i]], roots);
      SimplifiedEnvNext(before, roots, order, i, EmptyNames(roots), roots[order[i] := root]);
      roots := roots[order[i] := root];
    }
  }

  // ----- linking

  lemma LinkedAllNext(env: Env, order: seq<string>, k: nat, es: seq<Expr>, i: nat)
    requires Linkable(env, order) && k <= |order| && RefNamesIn(es) <= Elements(order[..k]) && i < |es|
    ensures RefNames(es[i]) <= Elements(order[..k])
    ensures RefNamesIn(es[..i]) <= Elements(order[..k]) && RefNamesIn(es[..i + 1]) <= Elements(order[..k])
    ensures LinkedAll(env, order, k, es[..i + 1]) == LinkedAll(env, order, k, es[..i]) + [Linked(env, order, k, es[i])]
  {
    ChildRefs(es, i);
    RefNamesFront(es, i);
    RefNamesFront(es, i + 1);
    assert es[..i + 1][..i] == es[..i];
  }

  /** The first n names of the order are linked. */
  ghost predicate LinkedUpTo(roots: Env, order: seq<string>, linked: map<string, Node>, n: nat)
    requires Linkable(roots, order) && n <= |order|
  {
    forall k | 0 <= k < n :: order[k] in linked && linked[order[k]] == LinkedSet(roots, order, k)
  }

  /** The references of an expression, replaced by the linked expressions of the names before it. */
  method LinkExpr(e: Expr, linked: map<string, Node>, ghost env: Env, ghost order: seq<string>, ghost k: nat)
      returns (n: Node)
    requires Linkable(env, order) && k <= |order| && RefNames(e) <= Elements(order[..k])
    requires LinkedUpTo(env, order, linked, k)
    ensures n == Linked(env, order, k, e)
    decreases e, 1
  {
    match e {
      case Name(m) => n := MatrixNodes.Leaf(m);
      case SetRef(name) =>
        assert name in RefNames(e);
        ghost var j := IndexOf(order[..k], name);
        assert order[j] == name;
        n := MatrixNodes.Ref(name, linked[name]);
      case AndExpr(es) =>
        var ns := LinkExprs(es, linked, env, order, k);
        n := MatrixNodes.And(ns);
      case OrExpr(es) =>
        var ns := LinkExprs(es, linked, env, order, k);
        n := MatrixNodes.Or(ns);
      case EmptyExpr => n := MatrixNodes.Empty;
    }
  }

  method LinkExprs(es: seq<Expr>, linked: map<string, Node>, ghost env: Env, ghost order: seq<string>, ghost k: nat)
      returns (ns: seq<Node>)
    requires Linkable(env, order) && k <= |order| && RefNamesIn(es) <= Elements(order[..k])
    requires LinkedUpTo(env, order, linked, k)
    ensures ns == LinkedAll(env, order, k, es)
    decreases es, 0
  {
    ns := [];
    for i := 0 to |es|
      invariant RefNamesIn(es[..i]) <= Elements(order[..k])
      invariant ns == LinkedAll(env, order, k, es[..i])
    {
      LinkedAllNext(env, order, k, es, i);
      var n := LinkExpr(es[i], linked, env, order, k);
      ns := ns + [n];
    }
    assert es[..|es|] == es;
  }

  method LinkAll(roots: Env, order: seq<string>) returns (linked: map<string, Node>)
    requires Linkable(roots, order)
    ensures LinkedUpTo(roots, order, linked, |order|)
  {
    linked := map[];
    for i := 0 to |order|
      invariant LinkedUpTo(roots, order, linked, i)
    {
      var n := LinkExpr(roots[order[i]], linked, roots, order, i);
      LinkedNext(roots, order, linked, i, n);
      linked := linked[order[i] := n];
    }
  }

  lemma LinkedNext(roots: Env, order: seq<string>, linked: map<string, Node>, i: nat, n: Node)
    requires Linkable(roots, order) && i < |order| && LinkedUpTo(roots, order, linked, i)
    requires n == LinkedSet(roots, order, i)
    ensures LinkedUpTo(roots, order, linked[order[i] := n], i + 1)
  {
    assert forall k | 0 <= k < i :: order[k] != order[i];
  }

  lemma {:induction false} RefNamesFront(es: seq<Expr>, k: nat)
    requires k <= |es|
    ensures RefNamesIn(es[..k]) <= RefNamesIn(es)
  {
    if k < |es| {
      RefNamesFront(es[..|es| - 1], k);
      assert es[..|es| - 1][..k] == es[..k];
    } else {
      assert es[..k] == es;
    }
  }

  // ----- Compile

  lemma CircularIsCycle(env: Env, deps: Deps, walk: seq<string>)
    requires deps.Keys == env.Keys && forall n | n in env :: Elements(deps[n]) == RefNames(env[n])
    ensures Cycle(deps, walk) <==> Circular(env, walk)
  {
    if Cycle(deps, walk) {
      forall i | 0 <= i < |walk| - 1 ensures walk[i] in env && walk[i + 1] in RefNames(env[walk[i]]) {
        assert walk[i + 1] in DepsOf(deps, walk[i]);
        assert walk[i + 1] in Elements(DepsOf(deps, walk[i]));
      }
    }
    if Circular(env, walk) {
      forall i | 0 <= i < |walk| - 1 ensures walk[i + 1] in DepsOf(deps, walk[i]) {
        assert walk[i + 1] in RefNames(env[walk[i]]);
        assert walk[i + 1] in Elements(deps[walk[i]]);
      }
    }
  }

  method UnseenModels(models: seq<string>, seen: set<string>) returns (orphans: seq<string>)
    ensures orphans == Unseen(models, seen)
  {
    orphans := [];
    for i := 0 to |models|
      invariant orphans == Unseen(models[..i], seen)
    {
      assert models[..i + 1][..i] == models[..i];
      if models[i] !in seen {
        orphans := orphans + [models[i]];
      }
    }
    assert models[..|models|] == models;
  }

  /** The sets carry the names, with their texts and linked expressions. */
  ghost predicate Selected(order: seq<string>, names: seq<string>, dsl: map<string, string>, linked: map<string, Node>,
                           sets: seq<NamedRoot>) {
    && |sets| == |names|
    && forall i | 0 <= i < |sets| ::
         var n := names[i];
         n in order && n in dsl && n in linked && sets[i] == NamedRoot(n, dsl[n], linked[n])
  }

  /** One set for every ordered name, except a synthesized orphan set. */
  method SelectSets(order: seq<string>, synthesized: bool, dsl: map<string, string>, linked: map<string, Node>)
      returns (sets: seq<NamedRoot>)
    requires forall n | n in order :: n in linked && (n in dsl || (synthesized && n == ORPHANS))
    ensures Selected(order, Selectable(order, synthesized), dsl, linked, sets)
  {
    sets := [];
    for i := 0 to |order|
      invariant Selected(order, Selectable(order[..i], synthesized), dsl, linked, sets)
    {
      assert order[..i + 1][..i] == order[..i];
      if synthesized && order[i] == ORPHANS { continue; }
      sets := sets + [NamedRoot(order[i], dsl[order[i]], linked[order[i]])];
    }
    assert order[..|order|] == order;
  }

  /** What Compile makes of a source whose references it has put in order. */
  method Build(ghost s: Source, roots: Env, order: seq<string>, dsl: map<string, string>,
               orphansReferenced: bool, synthesized: bool) returns (p: Program)
    requires Linkable(roots, order) && dsl == s.dsl && synthesized == Synthesized(s)
    requires s.env.Keys <= Elements(order) <= roots.Keys
    requires forall n | n in order :: n in dsl || (synthesized && n == ORPHANS)
    requires !orphansReferenced ==> forall n | n in order :: Printable(roots[n])
    ensures Compiles(s, roots, order, p)
  {
    var simple := roots;
    if orphansReferenced {
      simple := SimplifyAll(roots, order);
    } else {
      PlainIsSimplified(roots, order);
    }
    var linked := LinkAll(simple, order);
    var sets := SelectSets(order, synthesized, dsl, linked);
    p := ComputeSupport(sets);
    BuiltSets(roots, simple, order, dsl, linked, Selectable(order, synthesized), sets, p);
    SupportOfSets(sets, p);
  }

  lemma BuiltSets(roots: Env, simple: Env, order: seq<string>, dsl: map<string, string>, linked: map<string, Node>,
                  names: seq<string>, sets: seq<NamedRoot>, p: Program)
    requires Linkable(roots, order) && SimplifiedEnv(roots, simple, order, |order|)
    requires LinkedUpTo(simple, order, linked, |order|)
    requires Selected(order, names, dsl, linked, sets) && Supported(sets, p)
    ensures forall i | 0 <= i < |p.sets| :: p.sets[i].name == names[i] && CarriesSome(roots, order, dsl, p.sets[i])
    ensures forall i | 0 <= i < |p.sets| :: MatrixNodes.Compact(p.sets[i].root)
  {
    forall i | 0 <= i < |p.sets|
      ensures p.sets[i].name == names[i] && CarriesSome(roots, order, dsl, p.sets[i])
      ensures MatrixNodes.Compact(p.sets[i].root)
    {
      assert NamedRoot(p.sets[i].name, p.sets[i].dsl, p.sets[i].root) == sets[i];
      var k := BuiltSet(roots, simple, order, dsl, linked, names[i], p.sets[i]);
    }
  }

  lemma SupportOfSets(sets: seq<NamedRoot>, p: Program)
    requires Supported(sets, p) && forall i | 0 <= i < |p.sets| :: MatrixNodes.Compact(p.sets[i].root)
    ensures ExactSupport(p)
  {
    forall i | 0 <= i < |p.sets| ensures p.sets[i].root == sets[i].root {
      assert NamedRoot(p.sets[i].name, p.sets[i].dsl, p.sets[i].root) == sets[i];
    }
    SupportIsExact(p);
  }

  /** A set built from the linked form of a simplified expression carries that expression's meaning. */
  lemma BuiltSet(roots: Env, simple: Env, order: seq<string>, dsl: map<string, string>, linked: map<string, Node>,
                 name: string, c: CompiledSet) returns (k: nat)
    requires Linkable(roots, order) && SimplifiedEnv(roots, simple, order, |order|)
    requires LinkedUpTo(simple, order, linked, |order|)
    requires name in order && name in dsl && c.name == name && c.dsl == dsl[name] && c.root == linked[name]
    ensures k < |order| && Carries(roots, order, dsl, k, c)
  {
    k := IndexOf(order, name);
    assert c.root == Simplified(LinkedSet(roots, order, k));
    SimplifiedMeans(LinkedSet(roots, order, k));
    SimplifiedIsCompact(LinkedSet(roots, order, k));
  }

  /** In compact sets the mentioned models are the occurring ones. */
  lemma SupportIsExact(p: Program)
    requires forall i | 0 <= i < |p.sets| :: MatrixNodes.Compact(p.sets[i].root)
    requires forall i, m | 0 <= i < |p.sets| ::
               (m in p.modelBits && p.modelBits[m] in Bits(p.sets[i].support))
               <==> m in MatrixNodes.Mentioned(p.sets[i].root)
    ensures ExactSupport(p)
  {
    forall i, m | 0 <= i < |p.sets|
      ensures (m in p.modelBits && p.modelBits[m] in Bits(p.sets[i].support))
              <==> exists s :: s in MatrixNodes.Expansion(p.sets[i].root) && m in s
    {
      var root := p.sets[i].root;
      if m in MatrixNodes.Mentioned(root) {
        var s := MatrixNodes.MentionedOccurs(root, m);
      }
      if s :| s in MatrixNodes.Expansion(root) && m in s {
        MatrixNodes.ExpansionMentioned(root, s);
      }
    }
  }

  /** What compiling a gathered source comes to. */
  ghost predicate Compiled(defs: seq<Definition>, s: Source, allModels: seq<string>, r: Result<Program>) {
    var env := FullEnv(s, allModels);
    if defs == [] || exists walk :: Circular(env, walk) then r == Err
    else
      var order := CompileOrder(env, defs);
      && r.Ok? && Linkable(env, order) && Compiles(s, env, order, r.value)
      && DefinitionsInOrder(env, defs, order)
  }

  /** Compiles ordered definitions; fails exactly when there are none, a text is not understood, or the references are
      circular. */
  method Compile(defs: seq<Definition>, c: Chars, resolve: Resolver, allModels: seq<string>)
      returns (r: Result<Program>)
    requires c.Valid()
    ensures match Gathered(defs, c, resolve, Names(defs))
            case None => r == Err
            case Some(s) => Compiled(defs, s, allModels, r)
    ensures r.Ok? <==> defs != [] && Understood(defs, c, resolve, Names(defs)) && !exists walk :: Cyclic(defs, c, walk)
    ensures r.Ok? ==> MeansItsTexts(defs, c, resolve, allModels, r.value)
  {
    GatheredIffUnderstood(defs, c, resolve, Names(defs));
    if defs == [] { return Err; }
    var names := set d | d in defs :: d.name;
    var ok, roots, dsl, deps, w := ReadDefinitions(defs, c, resolve, names);
    if !ok { return Err; }
    ghost var s := Gathered(defs, c, resolve, names).value;
    GatheredOk(defs, c, resolve, names);
    r := CompileSource(defs, allModels, s, roots, dsl, deps, w);
    CompiledMeansTexts(defs, c, resolve, allModels, s, r);
  }

  /** The orphans, the order and the program of definitions that have been read. */
  method CompileSource(defs: seq<Definition>, allModels: seq<string>, ghost s: Source, roots0: Env,
                       dsl: map<string, string>, deps0: Deps, w: Walker) returns (r: Result<Program>)
    requires defs != [] && Sourced(s, Names(defs), Names(defs)) && Read(s, roots0, dsl, deps0, w)
    ensures Compiled(defs, s, allModels, r)
  {
    var synthesized, roots, deps := AddOrphans(defs, allModels, s, roots0, dsl, deps0, w);
    var ordered, order := OrderDefinitions(defs, deps, roots);
    if !ordered { return Err; }
    assert forall n | n in order :: n in Elements(order);
    var p := Build(s, roots, order, dsl, w.orphansReferenced, synthesized);
    r := Ok(p);
  }

  /** The set of unmentioned models, made once if any text refers to it and none defines it. */
  method AddOrphans(defs: seq<Definition>, allModels: seq<string>, ghost s: Source, roots0: Env,
                    dsl: map<string, string>, deps0: Deps, w: Walker)
      returns (synthesized: bool, roots: Env, deps: Deps)
    requires Sourced(s, Names(defs), Names(defs)) && Read(s, roots0, dsl, deps0, w)
    ensures synthesized == Synthesized(s) && roots == FullEnv(s, allModels) && Referring(roots, defs, deps)
    ensures forall n | n in roots :: n in dsl || (synthesized && n == ORPHANS)
    ensures !w.orphansReferenced ==> forall n | n in roots :: Printable(roots[n])
  {
    roots, deps := roots0, deps0;
    synthesized := w.orphansReferenced && ORPHANS !in roots0;
    if synthesized {
      var orphans := UnseenModels(allModels, w.seenModels);
      ModelSetRefs(Sort(orphans));
      roots, deps := roots[ORPHANS := ModelSet(Sort(orphans))], deps[ORPHANS := []];
    }
    OrphansRefer(defs, allModels, s, roots, deps0, deps);
  }

  lemma OrphansRefer(defs: seq<Definition>, allModels: seq<string>, s: Source, env: Env, before: Deps, deps: Deps)
    requires Sourced(s, Names(defs), Names(defs)) && ListsReferences(s.env, before) && env == FullEnv(s, allModels)
    requires deps == if Synthesized(s) then before[ORPHANS := []] else before
    ensures Referring(env, defs, deps)
  {
    var orphans := ModelSet(Sort(Unseen(allModels, s.seen)));
    ModelSetRefs(Sort(Unseen(allModels, s.seen)));
    forall n | n in env
      ensures RefNames(env[n]) <= env.Keys && deps[n] == Dependencies(env[n])
    {
      if Synthesized(s) && n == ORPHANS {
        assert env[n] == orphans;
      } else {
        assert env[n] == s.env[n] && RefNames(s.env[n]) <= Names(defs) + {ORPHANS};
      }
    }
  }

  lemma CompiledMeansTexts(defs: seq<Definition>, c: Chars, resolve: Resolver, allModels: seq<string>, s: Source,
                           r: Result<Program>)
    requires Gathered(defs, c, resolve, Names(defs)) == Some(s) && Compiled(defs, s, allModels, r)
    ensures r.Ok? <==> defs != [] && !exists walk :: Cyclic(defs, c, walk)
    ensures r.Ok? ==> MeansItsTexts(defs, c, resolve, allModels, r.value)
  {
    var env := FullEnv(s, allModels);
    CyclicIffCircular(defs, c, resolve, allModels, s, env);
    if r.Ok? { ProgramMeansTexts(defs, c, resolve, allModels, s, env, CompileOrder(env, defs), r.value); }
  }

  /** The selectable names are the defined ones, each once. */
  lemma {:induction false} SelectableNames(order: seq<string>, synthesized: bool)
    requires Distinct(order)
    ensures Elements(Selectable(order, synthesized)) == Elements(order) - if synthesized then {ORPHANS} else {}
    ensures Distinct(Selectable(order, synthesized))
  {
    if order != [] {
      var n := |order| - 1;
      SelectableNames(order[..n], synthesized);
      assert order == order[..n] + [order[n]];
      ElementsConcat(order[..n], [order[n]]);
      ElementsConcat(Selectable(order[..n], synthesized), [order[n]]);
      assert order[n] !in Elements(order[..n]);
      forall i | 0 <= i < |Selectable(order[..n], synthesized)|
        ensures Selectable(order[..n], synthesized)[i] != order[n]
      {
        assert Selectable(order[..n], synthesized)[i] in Elements(Selectable(order[..n], synthesized));
      }
    }
  }

  /** What a program compiles is what its texts describe. */
  lemma ProgramMeansTexts(defs: seq<Definition>, c: Chars, resolve: Resolver, allModels: seq<string>, s: Source,
                          env: Env, order: seq<string>, p: Program)
    requires Gives(defs, c, resolve, allModels, s, env) && Linkable(env, order) && Compiles(s, env, order, p)
    ensures MeansItsTexts(defs, c, resolve, allModels, p)
  {
    var names := Selectable(order, Synthesized(s));
    var known := FamiliesOf(defs, c, resolve, allModels, env, order);
    GatheredNames(defs, c, resolve, Names(defs));
    LinkedDescribe(defs, c, resolve, allModels, s, env, order);
    SelectableNames(order, Synthesized(s));
    forall i | 0 <= i < |p.sets| ensures CarriesText(defs, known, p.sets[i]) {
      assert p.sets[i].name == names[i] && names[i] in Elements(names);
      SetCarriesText(defs, c, resolve, allModels, s, env, order, p.sets[i]);
    }
    forall name ensures name in Names(defs) <==> exists i :: 0 <= i < |p.sets| && p.sets[i].name == name {
      if name in Names(defs) {
        assert name in Elements(names);
        var i :| 0 <= i < |names| && names[i] == name;
        assert p.sets[i].name == name;
      }
    }
  }

  lemma SetCarriesText(defs: seq<Definition>, c: Chars, resolve: Resolver, allModels: seq<string>, s: Source,
                       env: Env, order: seq<string>, cs: CompiledSet)
    requires Gives(defs, c, resolve, allModels, s, env) && Linkable(env, order)
    requires CarriesSome(env, order, s.dsl, cs) && cs.name in Names(defs)
    ensures CarriesText(defs, FamiliesOf(defs, c, resolve, allModels, env, order), cs)
  {
    var k :| 0 <= k < |order| && Carries(env, order, s.dsl, k, cs);
    assert IndexOf(order, cs.name) == k;
    var j := CountingDefinition(defs, cs.name);
    GatheredCounts(defs, c, resolve, Names(defs), j);
  }

  lemma NamesOfAll(defs: seq<Definition>)
    ensures Elements(NamesOf(defs)) == Names(defs)
  {
    forall d | d in defs ensures d.name in NamesOf(defs) {
      var i :| 0 <= i < |defs| && defs[i] == d;
      assert NamesOf(defs)[i] == d.name;
    }
  }

  method OrderDefinitions(defs: seq<Definition>, deps: Deps, ghost env: Env) returns (ok: bool, order: seq<string>)
    requires Referring(env, defs, deps)
    ensures ok <==> !exists walk :: Circular(env, walk)
    ensures ok ==> order == CompileOrder(env, defs)
    ensures ok ==> Linkable(env, order) && Names(defs) <= Elements(order) <= env.Keys
    ensures ok ==> DefinitionsInOrder(env, defs, order)
  {
    ReadyToSort(env, defs, deps);
    ok, order := TopologicalOrder(NamesOf(defs), deps);
    CyclesAreCircular(env, deps);
    if ok { OrderIsLinkable(env, deps, order); }
  }

  /** Every reference is to a name; apart from the orphans, which refer to nothing, the names are the defined ones. */
  ghost predicate Referring(env: Env, defs: seq<Definition>, deps: Deps) {
    && Names(defs) <= env.Keys <= Names(defs) + {ORPHANS}
    && (ORPHANS in env && ORPHANS !in Names(defs) ==> RefNames(env[ORPHANS]) == {})
    && ListsReferences(env, deps) && forall n | n in env :: RefNames(env[n]) <= env.Keys
  }

  /** What ordering the definitions starts from. */
  lemma ReadyToSort(env: Env, defs: seq<Definition>, deps: Deps)
    requires Referring(env, defs, deps)
    ensures deps == DependencyMap(env) && forall n | n in env :: Elements(deps[n]) == RefNames(env[n])
    ensures ClosedUnder(deps, deps.Keys) && Elements(NamesOf(defs)) == Names(defs) <= deps.Keys
    ensures forall n | n in deps && deps[n] != [] :: n in NamesOf(defs)
  {
    forall n | n in env ensures Elements(deps[n]) == RefNames(env[n]) { DependenciesAreRefs(env[n]); }
    NamesOfAll(defs);
    forall n | n in deps && deps[n] != [] ensures n in NamesOf(defs) {
      assert deps[n][0] in Elements(deps[n]);
      assert n in Elements(NamesOf(defs));
    }
  }

  lemma CyclesAreCircular(env: Env, deps: Deps)
    requires deps.Keys == env.Keys && forall n | n in env :: Elements(deps[n]) == RefNames(env[n])
    ensures (exists walk :: Cycle(deps, walk)) <==> exists walk :: Circular(env, walk)
  {
    if walk :| Cycle(deps, walk) { CircularIsCycle(env, deps, walk); }
    if walk :| Circular(env, walk) { CircularIsCycle(env, deps, walk); }
  }

  lemma OrderIsLinkable(env: Env, deps: Deps, order: seq<string>)
    requires deps.Keys == env.Keys && forall n | n in env :: Elements(deps[n]) == RefNames(env[n])
    requires Ordered(deps, order) && Elements(order) <= deps.Keys
    ensures Linkable(env, order)
  {
    forall k | 0 <= k < |order| ensures order[k] in env && RefNames(env[order[k]]) <= Elements(order[..k]) {
      assert order[k] in Elements(order);
    }
  }
}
