/** Named definitions of the matrix DSL, and the expressions they define. */
module MatrixSource {
  import opened Options
  import opened Strings
  import opened MatrixDsl
  import opened MatrixParser
  import opened MatrixOrder
  import opened MatrixLink

  datatype Definition = Definition(name: string, dsl: string)

  type Resolver = string -> Option<string>

  /** The reserved reference to the models no expression mentions. */
  const ORPHANS := "auto:orphans"

  /** An expression with its leaves resolved; None when a leaf or a reference is unknown. */
  ghost function Checked(e: Expr, resolve: Resolver, names: set<string>): Option<Expr>
    decreases e, 0
  {
    match e
    case Name(id) => (match resolve(id) case None => None case Some(m) => Some(Name(m)))
    case SetRef(n) => if n in names || n == ORPHANS then Some(e) else None
    case AndExpr(es) => (match CheckedAll(es, resolve, names) case None => None case Some(fs) => Some(AndExpr(fs)))
    case OrExpr(es) => (match CheckedAll(es, resolve, names) case None => None case Some(fs) => Some(OrExpr(fs)))
    case EmptyExpr => Some(e)
  }

  ghost function CheckedAll(es: seq<Expr>, resolve: Resolver, names: set<string>): (r: Option<seq<Expr>>)
    ensures r.Some? ==> |r.value| == |es|
    decreases es, 0
  {
    if es == [] then Some([])
    else
      match (CheckedAll(es[..|es| - 1], resolve, names), Checked(es[|es| - 1], resolve, names))
      case (Some(fs), Some(f)) => Some(fs + [f])
      case _ => None
  }

  /** The expressions by name, the last definition of a name winning; the models any definition mentions;
      and whether any refers to the orphans. */
  datatype Source = Source(env: Env, dsl: map<string, string>, seen: set<string>, orphans: bool)

  ghost function Names(defs: seq<Definition>): set<string> {
    set d | d in defs :: d.name
  }

  ghost function Gathered(defs: seq<Definition>, c: Chars, resolve: Resolver, names: set<string>): Option<Source> {
    if defs == [] then Some(Source(map[], map[], {}, false))
    else
      var d := defs[|defs| - 1];
      match Gathered(defs[..|defs| - 1], c, resolve, names)
      case None => None
      case Some(s) =>
        match Defined(d, c, resolve, names)
        case None => None
        case Some(f) =>
          Some(Source(s.env[d.name := f], s.dsl[d.name := d.dsl], s.seen + LeafNames(f),
                      s.orphans || ORPHANS in RefNames(f)))
  }

  /** The expression of a definition that parses, resolves and refers to defined sets. */
  ghost function Defined(d: Definition, c: Chars, resolve: Resolver, names: set<string>): Option<Expr> {
    match ParsedDsl(c, d.dsl)
    case None => None
    case Some(e) => Checked(e, resolve, names)
  }

  /** Whether the orphan set is made rather than written. */
  ghost predicate Synthesized(s: Source) {
    s.orphans && ORPHANS !in s.env
  }

  /** All expressions, with the set of unmentioned models when it is referred to and not defined. */
  ghost function FullEnv(s: Source, allModels: seq<string>): Env {
    if Synthesized(s) then s.env[ORPHANS := ModelSet(Sort(Unseen(allModels, s.seen)))] else s.env
  }

  function Unseen(models: seq<string>, seen: set<string>): seq<string> {
    if models == [] then []
    else
      var n := |models| - 1;
      Unseen(models[..n], seen) + if models[n] in seen then [] else [models[n]]
  }

  /** buildModelSet: the alternatives among sorted models. */
  function ModelSet(models: seq<string>): Expr {
    if models == [] then EmptyExpr else OrExpr(seq(|models|, i requires 0 <= i < |models| => Name(models[i])))
  }

  ghost predicate RefersTo(env: Env, walk: seq<string>) {
    forall i | 0 <= i < |walk| - 1 :: walk[i] in env && walk[i + 1] in RefNames(env[walk[i]])
  }

  /** A chain of references that returns to its start. */
  ghost predicate Circular(env: Env, walk: seq<string>) {
    |walk| >= 2 && walk[0] == walk[|walk| - 1] && RefersTo(env, walk)
  }

  function NamesOf(defs: seq<Definition>): (r: seq<string>)
    ensures |r| == |defs|
  {
    seq(|defs|, i requires 0 <= i < |defs| => defs[i].name)
  }

  /** Each expression depends on the sets it refers to, in the order of first mention. */
  ghost predicate ListsReferences(env: Env, deps: Deps) {
    deps.Keys == env.Keys && forall n | n in env :: deps[n] == Dependencies(env[n])
  }

  ghost function DependencyMap(env: Env): Deps {
    map n | n in env :: Dependencies(env[n])
  }

  /** The order that decides ties: depth first from the definitions as they are written, dependencies in the order of
      first mention. */
  ghost function CompileOrder(env: Env, defs: seq<Definition>): seq<string> {
    PostOrderAll(DependencyMap(env), {}, NamesOf(defs), [])
  }

  /** Apart from what they refer to, sets stand in the order they are defined in. */
  ghost predicate DefinitionsInOrder(env: Env, defs: seq<Definition>, order: seq<string>) {
    forall i | 0 <= i <= |defs| :: FillsFront(DependencyMap(env), NamesOf(defs)[..i], order)
  }
}
