/** What definitions describe. */
module MatrixFamilies {
  import opened Options
  import opened Strings
  import opened Collections
  import opened MatrixDsl
  import opened MatrixParser
  import opened MatrixLink
  import opened MatrixSource
  import opened MatrixSimplify
  import MatrixNodes

  // Everything here is read off the parsed texts: an operator by its operands, a reference by the definition it names,
  // the automatic orphans by the models no text mentions.

  type Family = set<set<string>>
  type Families = map<string, Family>

  /** The expression itself, or a part of it. */
  ghost predicate PartOf(t: Expr, e: Expr)
    decreases e
  {
    t == e || ((e.AndExpr? || e.OrExpr?) && exists i :: 0 <= i < |e.children| && PartOf(t, e.children[i]))
  }

  /** A leaf is known if it resolves, a reference if it names a definition or the automatic orphans. */
  predicate Known(t: Expr, resolve: Resolver, names: set<string>) {
    (t.Name? ==> resolve(t.id).Some?) && (t.SetRef? ==> t.name in names || t.name == ORPHANS)
  }

  /** Every text parses, and every part of it is known. */
  ghost predicate Understood(defs: seq<Definition>, c: Chars, resolve: Resolver, names: set<string>) {
    forall i | 0 <= i < |defs| :: UnderstoodText(defs[i].dsl, c, resolve, names)
  }

  ghost predicate UnderstoodText(dsl: string, c: Chars, resolve: Resolver, names: set<string>) {
    ParsedDsl(c, dsl).Some? && forall t | PartOf(t, ParsedDsl(c, dsl).value) :: Known(t, resolve, names)
  }

  /** The model sets an expression describes, given those of the names it refers to; operands that describe none are
      deleted. */
  ghost function FamilyOf(e: Expr, resolve: Resolver, known: Families): Family
    decreases e, 0
  {
    match e
    case Name(id) => (match resolve(id) case Some(m) => {{m}} case None => {})
    case SetRef(n) => if n in known then known[n] else {}
    case OrExpr(es) => set i, s | 0 <= i < |es| && s in FamilyOf(es[i], resolve, known) :: s
    case AndExpr(es) =>
      if forall i | 0 <= i < |es| :: FamilyOf(es[i], resolve, known) == {} then {}
      else Unions(es, resolve, known)
    case EmptyExpr => {}
  }

  /** Every union of one set from each operand that describes any. */
  ghost function Unions(es: seq<Expr>, resolve: Resolver, known: Families): Family
    decreases es, 0
  {
    if es == [] then {{}}
    else
      var front, last := Unions(es[..|es| - 1], resolve, known), FamilyOf(es[|es| - 1], resolve, known);
      if last == {} then front else set x, y | x in front && y in last :: x + y
  }

  /** Definition i is the one that counts for its name. */
  predicate Counts(defs: seq<Definition>, i: int) {
    0 <= i < |defs| && forall j | i < j < |defs| :: defs[j].name != defs[i].name
  }

  /** Some leaf of some definition, whether it counts or not, resolves to the model. */
  ghost predicate MentionedBy(defs: seq<Definition>, c: Chars, resolve: Resolver, m: string) {
    exists i, id :: 0 <= i < |defs| && Mentions(defs[i].dsl, c, id) && resolve(id) == Some(m)
  }

  ghost predicate Mentions(dsl: string, c: Chars, id: string) {
    ParsedDsl(c, dsl).Some? && PartOf(Name(id), ParsedDsl(c, dsl).value)
  }

  ghost function OrphanFamily(defs: seq<Definition>, c: Chars, resolve: Resolver, allModels: seq<string>): Family {
    set m | m in allModels && !MentionedBy(defs, c, resolve, m) :: {m}
  }

  /** The families of all names: each that of the text that counts for it, which may refer to the others. */
  ghost predicate Describe(defs: seq<Definition>, c: Chars, resolve: Resolver, allModels: seq<string>,
                           known: Families) {
    && known.Keys == Names(defs) + {ORPHANS}
    && (ORPHANS !in Names(defs) ==> known[ORPHANS] == OrphanFamily(defs, c, resolve, allModels))
    && forall i | Counts(defs, i) :: DescribesText(known, defs[i].name, defs[i].dsl, c, resolve)
  }

  ghost predicate DescribesText(known: Families, name: string, dsl: string, c: Chars, resolve: Resolver) {
    ParsedDsl(c, dsl).Some? && name in known && known[name] == FamilyOf(ParsedDsl(c, dsl).value, resolve, known)
  }

  /** The text that counts for a refers to b. */
  ghost predicate Refers(defs: seq<Definition>, c: Chars, a: string, b: string) {
    exists i :: Counts(defs, i) && defs[i].name == a && HasReference(defs[i].dsl, c, b)
  }

  ghost predicate HasReference(dsl: string, c: Chars, name: string) {
    ParsedDsl(c, dsl).Some? && PartOf(SetRef(name), ParsedDsl(c, dsl).value)
  }

  /** A chain of references from text to text that returns to its start. */
  ghost predicate Cyclic(defs: seq<Definition>, c: Chars, walk: seq<string>) {
    && |walk| >= 2 && walk[0] == walk[|walk| - 1]
    && forall i | 0 <= i < |walk| - 1 :: Refers(defs, c, walk[i], walk[i + 1])
  }

  // ----- parts of checked expressions

  lemma {:induction false} CheckedIffKnown(e: Expr, resolve: Resolver, names: set<string>)
    ensures Checked(e, resolve, names).Some? <==> forall t | PartOf(t, e) :: Known(t, resolve, names)
    decreases e, 1
  {
    match e
    case AndExpr(es) => CheckedAllIffKnown(e, es, resolve, names);
    case OrExpr(es) => CheckedAllIffKnown(e, es, resolve, names);
    case _ => assert PartOf(e, e);
  }

  lemma {:induction false} CheckedAllIffKnown(e: Expr, es: seq<Expr>, resolve: Resolver, names: set<string>)
    requires e == AndExpr(es) || e == OrExpr(es)
    ensures CheckedAll(es, resolve, names).Some? <==> forall t | PartOf(t, e) :: Known(t, resolve, names)
    decreases es, 1
  {
    CheckedEach(es, resolve, names);
    forall i | 0 <= i < |es|
      ensures Checked(es[i], resolve, names).Some? <==> forall t | PartOf(t, es[i]) :: Known(t, resolve, names)
    {
      CheckedIffKnown(es[i], resolve, names);
    }
    forall i, t | 0 <= i < |es| && PartOf(t, es[i]) ensures PartOf(t, e) {
      assert es[i] == e.children[i];
    }
  }

  /** All operands are checked exactly when each is, place by place. */
  lemma {:induction false} CheckedEach(es: seq<Expr>, resolve: Resolver, names: set<string>)
    ensures CheckedAll(es, resolve, names).Some? <==> forall i | 0 <= i < |es| :: Checked(es[i], resolve, names).Some?
    ensures var fs := CheckedAll(es, resolve, names);
            fs.Some? ==> forall i | 0 <= i < |es| :: Checked(es[i], resolve, names) == Some(fs.value[i])
    decreases es, 0
  {
    if es != [] { CheckedEach(es[..|es| - 1], resolve, names); }
  }

  lemma {:induction false} RefNamesInEach(es: seq<Expr>, n: string)
    ensures n in RefNamesIn(es) <==> exists i :: 0 <= i < |es| && n in RefNames(es[i])
  {
    if es != [] {
      var k := |es| - 1;
      RefNamesInEach(es[..k], n);
      if i :| 0 <= i < k && n in RefNames(es[..k][i]) { assert n in RefNames(es[i]); }
      if i :| 0 <= i < |es| && n in RefNames(es[i]) { assert i < k ==> n in RefNames(es[..k][i]); }
    }
  }

  lemma {:induction false} LeafNamesInEach(es: seq<Expr>, m: string)
    ensures m in LeafNamesIn(es) <==> exists i :: 0 <= i < |es| && m in LeafNames(es[i])
  {
    if es != [] {
      var k := |es| - 1;
      LeafNamesInEach(es[..k], m);
      if i :| 0 <= i < k && m in LeafNames(es[..k][i]) { assert m in LeafNames(es[i]); }
      if i :| 0 <= i < |es| && m in LeafNames(es[i]) { assert i < k ==> m in LeafNames(es[..k][i]); }
    }
  }

  /** A checked expression refers to what stands in the text. */
  lemma {:induction false} ReferencesAreParts(e: Expr, resolve: Resolver, names: set<string>, n: string)
    requires Checked(e, resolve, names).Some?
    ensures n in RefNames(Checked(e, resolve, names).value) <==> PartOf(SetRef(n), e)
    decreases e
  {
    if e.AndExpr? || e.OrExpr? {
      CheckedEach(e.children, resolve, names);
      RefNamesInEach(CheckedAll(e.children, resolve, names).value, n);
      forall i | 0 <= i < |e.children|
        ensures n in RefNames(Checked(e.children[i], resolve, names).value) <==> PartOf(SetRef(n), e.children[i])
      {
        ReferencesAreParts(e.children[i], resolve, names, n);
      }
    }
  }

  ghost predicate LeafResolves(e: Expr, resolve: Resolver, m: string) {
    exists id :: PartOf(Name(id), e) && resolve(id) == Some(m)
  }

  /** Its leaves are what the leaves of the text resolve to. */
  lemma {:induction false} LeavesAreParts(e: Expr, resolve: Resolver, names: set<string>, m: string)
    requires Checked(e, resolve, names).Some?
    ensures m in LeafNames(Checked(e, resolve, names).value) <==> LeafResolves(e, resolve, m)
    decreases e
  {
    match e
    case Name(id) => assert PartOf(Name(id), e);
    case SetRef(_) =>
    case EmptyExpr =>
    case AndExpr(es) => LeavesOfOperands(e, es, resolve, names, m);
    case OrExpr(es) => LeavesOfOperands(e, es, resolve, names, m);
  }

  lemma {:induction false} LeavesOfOperands(e: Expr, es: seq<Expr>, resolve: Resolver, names: set<string>, m: string)
    requires (e == AndExpr(es) || e == OrExpr(es)) && CheckedAll(es, resolve, names).Some?
    ensures m in LeafNamesIn(CheckedAll(es, resolve, names).value) <==> LeafResolves(e, resolve, m)
    decreases es
  {
    CheckedEach(es, resolve, names);
    LeafNamesInEach(CheckedAll(es, resolve, names).value, m);
    forall i | 0 <= i < |es|
      ensures m in LeafNames(Checked(es[i], resolve, names).value) <==> LeafResolves(es[i], resolve, m)
    {
      LeavesAreParts(es[i], resolve, names, m);
    }
    forall i, t | 0 <= i < |es| && PartOf(t, es[i]) ensures PartOf(t, e) {
      assert es[i] == e.children[i];
    }
    if LeafResolves(e, resolve, m) {
      var id :| PartOf(Name(id), e) && resolve(id) == Some(m);
      var i :| 0 <= i < |es| && PartOf(Name(id), es[i]);
      assert LeafResolves(es[i], resolve, m);
    }
  }

  // ----- a linked expression means its family

  /** The names before k are known by what they link to. */
  ghost predicate KnownUpTo(env: Env, order: seq<string>, k: nat, known: Families)
    requires Linkable(env, order) && k <= |order|
  {
    forall j | 0 <= j < k :: order[j] in known && known[order[j]] == Meaning(LinkedSet(env, order, j))
  }

  lemma {:induction false} LinkedEach(env: Env, order: seq<string>, k: nat, es: seq<Expr>, i: nat)
    requires Linkable(env, order) && k <= |order| && RefNamesIn(es) <= Elements(order[..k]) && i < |es|
    ensures RefNames(es[i]) <= Elements(order[..k])
    ensures LinkedAll(env, order, k, es)[i] == Linked(env, order, k, es[i])
  {
    ChildRefs(es, i);
    if i < |es| - 1 { LinkedEach(env, order, k, es[..|es| - 1], i); }
  }

  lemma {:induction false} AlternativesEach(ns: seq<Node>, s: set<string>)
    ensures s in MeaningOr(ns) <==> exists i :: 0 <= i < |ns| && s in Meaning(ns[i])
  {
    if ns != [] {
      var n := |ns| - 1;
      AlternativesEach(ns[..n], s);
      if i :| 0 <= i < n && s in Meaning(ns[..n][i]) { assert s in Meaning(ns[i]); }
      if i :| 0 <= i < |ns| && s in Meaning(ns[i]) { assert i < n ==> s in Meaning(ns[..n][i]); }
    }
  }

  /** The nodes mean the families of the operands, one by one. */
  ghost predicate MeanEach(ns: seq<Node>, es: seq<Expr>, resolve: Resolver, known: Families) {
    |ns| == |es| && forall i | 0 <= i < |es| :: Meaning(ns[i]) == FamilyOf(es[i], resolve, known)
  }

  lemma {:induction false} UnionsEach(ns: seq<Node>, es: seq<Expr>, resolve: Resolver, known: Families)
    requires MeanEach(ns, es, resolve, known)
    ensures MeaningAnd(ns) == Unions(es, resolve, known)
  {
    if es != [] {
      var n := |es| - 1;
      UnionsEach(ns[..n], es[..n], resolve, known);
      MeansNothingIffVanishes(ns[n]);
    }
  }

  lemma {:induction false} LinkedMeansFamily(e: Expr, resolve: Resolver, names: set<string>, env: Env,
                                             order: seq<string>, k: nat, known: Families)
    requires Linkable(env, order) && k <= |order| && KnownUpTo(env, order, k, known)
    requires Checked(e, resolve, names).Some?
    requires RefNames(Checked(e, resolve, names).value) <= Elements(order[..k])
    ensures Meaning(Linked(env, order, k, Checked(e, resolve, names).value)) == FamilyOf(e, resolve, known)
    decreases e, 1
  {
    match e
    case Name(_) =>
    case EmptyExpr =>
    case SetRef(n) =>
      assert n in RefNames(e);
      var j := IndexOf(order[..k], n);
      assert order[j] == n;
    case AndExpr(es) =>
      OperandsMeanFamilies(es, resolve, names, env, order, k, known);
      AndMeansUnions(LinkedAll(env, order, k, CheckedAll(es, resolve, names).value), es, resolve, known);
    case OrExpr(es) =>
      OperandsMeanFamilies(es, resolve, names, env, order, k, known);
      OrMeansUnion(LinkedAll(env, order, k, CheckedAll(es, resolve, names).value), es, resolve, known);
  }

  lemma {:induction false} OperandsMeanFamilies(es: seq<Expr>, resolve: Resolver, names: set<string>, env: Env,
                                                order: seq<string>, k: nat, known: Families)
    requires Linkable(env, order) && k <= |order| && KnownUpTo(env, order, k, known)
    requires CheckedAll(es, resolve, names).Some?
    requires RefNamesIn(CheckedAll(es, resolve, names).value) <= Elements(order[..k])
    ensures MeanEach(LinkedAll(env, order, k, CheckedAll(es, resolve, names).value), es, resolve, known)
    decreases es, 1
  {
    var fs := CheckedAll(es, resolve, names).value;
    CheckedEach(es, resolve, names);
    forall i | 0 <= i < |es|
      ensures Meaning(LinkedAll(env, order, k, fs)[i]) == FamilyOf(es[i], resolve, known)
    {
      LinkedEach(env, order, k, fs, i);
      LinkedMeansFamily(es[i], resolve, names, env, order, k, known);
    }
  }

  lemma AndMeansUnions(ns: seq<Node>, es: seq<Expr>, resolve: Resolver, known: Families)
    requires MeanEach(ns, es, resolve, known)
    ensures Meaning(MatrixNodes.And(ns)) == FamilyOf(AndExpr(es), resolve, known)
  {
    UnionsEach(ns, es, resolve, known);
    forall i | 0 <= i < |ns| ensures Meaning(ns[i]) == {} <==> Vanishes(ns[i]) { MeansNothingIffVanishes(ns[i]); }
  }

  lemma NoAlternative(ns: seq<Node>)
    requires Vanishes(MatrixNodes.Or(ns))
    ensures MeaningOr(ns) == {}
  {
    forall s ensures s !in MeaningOr(ns) {
      AlternativesEach(ns, s);
    }
  }

  lemma OrMeansUnion(ns: seq<Node>, es: seq<Expr>, resolve: Resolver, known: Families)
    requires MeanEach(ns, es, resolve, known)
    ensures Meaning(MatrixNodes.Or(ns)) == FamilyOf(OrExpr(es), resolve, known)
  {
    MeansNothingIffVanishes(MatrixNodes.Or(ns));
    assert Meaning(MatrixNodes.Or(ns)) == MeaningOr(ns) by {
      if Vanishes(MatrixNodes.Or(ns)) { NoAlternative(ns); }
    }
    forall s ensures s in MeaningOr(ns) <==> s in FamilyOf(OrExpr(es), resolve, known) {
      AlternativesEach(ns, s);
      if i :| 0 <= i < |ns| && s in Meaning(ns[i]) { assert s in FamilyOf(es[i], resolve, known); }
      if i :| 0 <= i < |es| && s in FamilyOf(es[i], resolve, known) { assert s in Meaning(ns[i]); }
    }
  }

  // ----- what the definitions gather

  lemma DefinedIffUnderstood(d: Definition, c: Chars, resolve: Resolver, names: set<string>)
    ensures Defined(d, c, resolve, names).Some? <==> UnderstoodText(d.dsl, c, resolve, names)
  {
    if ParsedDsl(c, d.dsl).Some? { CheckedIffKnown(ParsedDsl(c, d.dsl).value, resolve, names); }
  }

  /** Definitions are gathered exactly when every text is understood. */
  lemma {:induction false} GatheredIffUnderstood(defs: seq<Definition>, c: Chars, resolve: Resolver,
                                                 names: set<string>)
    ensures Gathered(defs, c, resolve, names).Some? <==> Understood(defs, c, resolve, names)
  {
    if defs != [] {
      var n := |defs| - 1;
      GatheredIffUnderstood(defs[..n], c, resolve, names);
      DefinedIffUnderstood(defs[n], c, resolve, names);
      assert forall i | 0 <= i < n :: defs[..n][i] == defs[i];
    }
  }

  /** Under each name stands the text that counts for it, checked. */
  ghost predicate Under(s: Source, d: Definition, c: Chars, resolve: Resolver, names: set<string>) {
    && d.name in s.env && Defined(d, c, resolve, names) == Some(s.env[d.name])
    && d.name in s.dsl && s.dsl[d.name] == d.dsl
  }

  lemma {:induction false} GatheredCounts(defs: seq<Definition>, c: Chars, resolve: Resolver, names: set<string>,
                                          i: int)
    requires Gathered(defs, c, resolve, names).Some? && Counts(defs, i)
    ensures Under(Gathered(defs, c, resolve, names).value, defs[i], c, resolve, names)
  {
    var n := |defs| - 1;
    if i < n {
      assert defs[n].name != defs[i].name;
      GatheredCounts(defs[..n], c, resolve, names, i);
    }
  }

  /** The models seen are those some leaf resolves to, in any text. */
  lemma {:induction false} GatheredSees(defs: seq<Definition>, c: Chars, resolve: Resolver, names: set<string>,
                                        m: string)
    requires Gathered(defs, c, resolve, names).Some?
    ensures m in Gathered(defs, c, resolve, names).value.seen <==> MentionedBy(defs, c, resolve, m)
  {
    if defs != [] {
      var n := |defs| - 1;
      GatheredSees(defs[..n], c, resolve, names, m);
      LeavesAreParts(ParsedDsl(c, defs[n].dsl).value, resolve, names, m);
      MentionedNext(defs, c, resolve, m);
    }
  }

  lemma MentionedNext(defs: seq<Definition>, c: Chars, resolve: Resolver, m: string)
    requires defs != [] && ParsedDsl(c, defs[|defs| - 1].dsl).Some?
    ensures MentionedBy(defs, c, resolve, m) <==>
            MentionedBy(defs[..|defs| - 1], c, resolve, m)
            || LeafResolves(ParsedDsl(c, defs[|defs| - 1].dsl).value, resolve, m)
  {
    var n := |defs| - 1;
    if MentionedBy(defs, c, resolve, m) {
      var i, id :| 0 <= i < |defs| && Mentions(defs[i].dsl, c, id) && resolve(id) == Some(m);
      assert i < n ==> Mentions(defs[..n][i].dsl, c, id);
    }
    if MentionedBy(defs[..n], c, resolve, m) {
      var i, id :| 0 <= i < n && Mentions(defs[..n][i].dsl, c, id) && resolve(id) == Some(m);
      assert Mentions(defs[i].dsl, c, id);
    }
    if LeafResolves(ParsedDsl(c, defs[n].dsl).value, resolve, m) {
      var id :| PartOf(Name(id), ParsedDsl(c, defs[n].dsl).value) && resolve(id) == Some(m);
      assert Mentions(defs[n].dsl, c, id);
    }
  }

  /** The orphans are noted exactly when some text refers to them. */
  lemma {:induction false} GatheredNotesOrphans(defs: seq<Definition>, c: Chars, resolve: Resolver,
                                                names: set<string>)
    requires Gathered(defs, c, resolve, names).Some?
    ensures Gathered(defs, c, resolve, names).value.orphans
            <==> exists i :: 0 <= i < |defs| && HasReference(defs[i].dsl, c, ORPHANS)
  {
    if defs != [] {
      var n := |defs| - 1;
      GatheredNotesOrphans(defs[..n], c, resolve, names);
      ReferencesAreParts(ParsedDsl(c, defs[n].dsl).value, resolve, names, ORPHANS);
      if i :| 0 <= i < n && HasReference(defs[..n][i].dsl, c, ORPHANS) {
        assert HasReference(defs[i].dsl, c, ORPHANS);
      }
      if i :| 0 <= i < |defs| && HasReference(defs[i].dsl, c, ORPHANS) {
        assert i < n ==> HasReference(defs[..n][i].dsl, c, ORPHANS);
      }
    }
  }

  /** Every defined name has a definition that counts for it. */
  lemma {:induction false} CountingDefinition(defs: seq<Definition>, name: string) returns (i: int)
    requires name in Names(defs)
    ensures Counts(defs, i) && defs[i].name == name
  {
    var n := |defs| - 1;
    if defs[n].name == name {
      i := n;
    } else {
      var d :| d in defs && d.name == name;
      assert d in defs[..n];
      i := CountingDefinition(defs[..n], name);
    }
  }

  lemma {:induction false} GatheredNames(defs: seq<Definition>, c: Chars, resolve: Resolver, names: set<string>)
    requires Gathered(defs, c, resolve, names).Some?
    ensures Gathered(defs, c, resolve, names).value.env.Keys == Names(defs)
  {
    if defs != [] {
      var n := |defs| - 1;
      GatheredNames(defs[..n], c, resolve, names);
      assert defs == defs[..n] + [defs[n]];
      assert Names(defs) == Names(defs[..n]) + {defs[n].name};
    }
  }

  lemma ModelSetRefs(models: seq<string>)
    ensures RefNames(ModelSet(models)) == {} && Dependencies(ModelSet(models)) == []
  {
    if models != [] { NoRefs(ModelSet(models).children); }
    DependenciesAreRefs(ModelSet(models));
    NoElements(Dependencies(ModelSet(models)));
  }

  lemma {:induction false} NoRefs(es: seq<Expr>)
    requires forall i | 0 <= i < |es| :: es[i].Name?
    ensures RefNamesIn(es) == {}
  {
    if es != [] { NoRefs(es[..|es| - 1]); }
  }

  /** The gathered source and all its expressions, orphans included. */
  ghost predicate Gives(defs: seq<Definition>, c: Chars, resolve: Resolver, allModels: seq<string>, s: Source,
                        env: Env) {
    Gathered(defs, c, resolve, Names(defs)) == Some(s) && env == FullEnv(s, allModels)
  }

  /** What a name is defined by, and what its expression refers to. */
  lemma DefinedBy(defs: seq<Definition>, c: Chars, resolve: Resolver, allModels: seq<string>, s: Source, env: Env,
                  i: int)
    requires Gives(defs, c, resolve, allModels, s, env) && Counts(defs, i)
    ensures defs[i].name in env && ParsedDsl(c, defs[i].dsl).Some?
    ensures Checked(ParsedDsl(c, defs[i].dsl).value, resolve, Names(defs)) == Some(env[defs[i].name])
    ensures forall n :: n in RefNames(env[defs[i].name]) <==> HasReference(defs[i].dsl, c, n)
  {
    GatheredCounts(defs, c, resolve, Names(defs), i);
    GatheredNames(defs, c, resolve, Names(defs));
    var e := ParsedDsl(c, defs[i].dsl).value;
    forall n ensures n in RefNames(env[defs[i].name]) <==> HasReference(defs[i].dsl, c, n) {
      ReferencesAreParts(e, resolve, Names(defs), n);
    }
  }

  /** An expression refers to a name exactly when the text that counts does. */
  lemma RefersIffWritten(defs: seq<Definition>, c: Chars, resolve: Resolver, allModels: seq<string>, s: Source,
                         env: Env, a: string, b: string)
    requires Gives(defs, c, resolve, allModels, s, env)
    ensures a in env && b in RefNames(env[a]) <==> Refers(defs, c, a, b)
  {
    GatheredNames(defs, c, resolve, Names(defs));
    ModelSetRefs(Sort(Unseen(allModels, s.seen)));
    if a in Names(defs) {
      var i := CountingDefinition(defs, a);
      DefinedBy(defs, c, resolve, allModels, s, env, i);
      if Refers(defs, c, a, b) {
        var j :| Counts(defs, j) && defs[j].name == a && HasReference(defs[j].dsl, c, b);
        assert i == j;
      }
    }
  }

  lemma CircularIffWritten(defs: seq<Definition>, c: Chars, resolve: Resolver, allModels: seq<string>, s: Source,
                           env: Env, walk: seq<string>)
    requires Gives(defs, c, resolve, allModels, s, env)
    ensures Circular(env, walk) <==> Cyclic(defs, c, walk)
  {
    if Cyclic(defs, c, walk) {
      forall i | 0 <= i < |walk| - 1 ensures walk[i] in env && walk[i + 1] in RefNames(env[walk[i]]) {
        assert Refers(defs, c, walk[i], walk[i + 1]);
        RefersIffWritten(defs, c, resolve, allModels, s, env, walk[i], walk[i + 1]);
      }
    }
    if Circular(env, walk) {
      forall i | 0 <= i < |walk| - 1 ensures Refers(defs, c, walk[i], walk[i + 1]) {
        RefersIffWritten(defs, c, resolve, allModels, s, env, walk[i], walk[i + 1]);
      }
    }
  }

  lemma CyclicIffCircular(defs: seq<Definition>, c: Chars, resolve: Resolver, allModels: seq<string>, s: Source,
                          env: Env)
    requires Gives(defs, c, resolve, allModels, s, env)
    ensures (exists walk :: Cyclic(defs, c, walk)) <==> exists walk :: Circular(env, walk)
  {
    if walk :| Cyclic(defs, c, walk) { CircularIffWritten(defs, c, resolve, allModels, s, env, walk); }
    if walk :| Circular(env, walk) { CircularIffWritten(defs, c, resolve, allModels, s, env, walk); }
  }

  // ----- the families of a linked program

  lemma {:induction false} UnseenElements(models: seq<string>, seen: set<string>)
    ensures Elements(Unseen(models, seen)) == Elements(models) - seen
  {
    if models != [] {
      var n := |models| - 1;
      UnseenElements(models[..n], seen);
      assert models == models[..n] + [models[n]];
      ElementsConcat(models[..n], [models[n]]);
      ElementsConcat(Unseen(models[..n], seen), if models[n] in seen then [] else [models[n]]);
    }
  }

  lemma ModelSetMeans(env: Env, order: seq<string>, k: nat, models: seq<string>)
    requires Linkable(env, order) && k <= |order| && RefNames(ModelSet(models)) <= Elements(order[..k])
    ensures Meaning(Linked(env, order, k, ModelSet(models))) == set m | m in models :: {m}
  {
    if models != [] {
      var es := ModelSet(models).children;
      var ns := LinkedAll(env, order, k, es);
      forall i | 0 <= i < |ns| ensures ns[i] == MatrixNodes.Leaf(models[i]) && Meaning(ns[i]) == {{models[i]}} {
        LinkedEach(env, order, k, es, i);
      }
      assert !Vanishes(ns[0]);
      forall s ensures s in MeaningOr(ns) <==> exists m :: m in models && s == {m} {
        AlternativesEach(ns, s);
        if m :| m in models && s == {m} {
          var i :| 0 <= i < |models| && models[i] == m;
          assert s in Meaning(ns[i]);
        }
      }
    }
  }

  /** The orphan set made for a source means one single-model set for each model no text mentions. */
  lemma OrphansMean(defs: seq<Definition>, c: Chars, resolve: Resolver, allModels: seq<string>, s: Source, env: Env,
                    order: seq<string>, k: nat)
    requires Gives(defs, c, resolve, allModels, s, env) && Linkable(env, order) && k < |order|
    requires order[k] == ORPHANS && ORPHANS !in Names(defs)
    ensures Meaning(LinkedSet(env, order, k)) == OrphanFamily(defs, c, resolve, allModels)
  {
    GatheredNames(defs, c, resolve, Names(defs));
    ModelSetMeans(env, order, k, Sort(Unseen(allModels, s.seen)));
    OrphansUnmentioned(defs, c, resolve, allModels, s);
  }

  /** The automatic orphans are a choice among the models no text mentions, in the order of their names. */
  lemma OrphansInOrder(defs: seq<Definition>, c: Chars, resolve: Resolver, allModels: seq<string>, s: Source, env: Env)
      returns (models: seq<string>)
    requires Gives(defs, c, resolve, allModels, s, env) && ORPHANS in env && ORPHANS !in Names(defs)
    ensures if models == [] then env[ORPHANS] == EmptyExpr
            else env[ORPHANS].OrExpr? && |env[ORPHANS].children| == |models|
                 && forall i | 0 <= i < |models| :: env[ORPHANS].children[i] == Name(models[i])
    ensures forall i, j | 0 <= i < j < |models| :: !StandsBefore(models[j], models[i])
    ensures forall m :: m in models <==> m in allModels && !MentionedBy(defs, c, resolve, m)
  {
    models := Sort(Unseen(allModels, s.seen));
    GatheredNames(defs, c, resolve, Names(defs));
    SortedStands(models);
    OrphansUnmentioned(defs, c, resolve, allModels, s);
  }

  lemma SortedStands(models: seq<string>)
    requires Sorted(models)
    ensures forall i, j | 0 <= i < j < |models| :: !StandsBefore(models[j], models[i])
  {
    forall i, j | 0 <= i < j < |models| ensures !StandsBefore(models[j], models[i]) {
      LessIsFirstDifference(models[j], models[i]);
    }
  }

  lemma OrphansUnmentioned(defs: seq<Definition>, c: Chars, resolve: Resolver, allModels: seq<string>, s: Source)
    requires Gathered(defs, c, resolve, Names(defs)) == Some(s)
    ensures forall m :: m in Sort(Unseen(allModels, s.seen)) <==> m in allModels && !MentionedBy(defs, c, resolve, m)
  {
    var orphans := Unseen(allModels, s.seen);
    UnseenElements(allModels, s.seen);
    forall m ensures m in Sort(orphans) <==> m in allModels && !MentionedBy(defs, c, resolve, m) {
      GatheredSees(defs, c, resolve, Names(defs), m);
      assert m in Sort(orphans) <==> m in multiset(Sort(orphans));
      assert m in orphans <==> m in Elements(orphans);
    }
  }

  ghost function FamiliesOf(defs: seq<Definition>, c: Chars, resolve: Resolver, allModels: seq<string>, env: Env,
                            order: seq<string>): Families
    requires Linkable(env, order)
  {
    map n | n in Names(defs) + {ORPHANS} ::
      if n in order then Meaning(LinkedSet(env, order, IndexOf(order, n)))
      else OrphanFamily(defs, c, resolve, allModels)
  }

  /** The meanings of the linked expressions are the families the texts describe. */
  lemma LinkedDescribe(defs: seq<Definition>, c: Chars, resolve: Resolver, allModels: seq<string>, s: Source, env: Env,
                       order: seq<string>)
    requires Gives(defs, c, resolve, allModels, s, env) && Linkable(env, order)
    requires Names(defs) <= Elements(order) <= env.Keys
    ensures Describe(defs, c, resolve, allModels, FamiliesOf(defs, c, resolve, allModels, env, order))
  {
    var known := FamiliesOf(defs, c, resolve, allModels, env, order);
    GatheredNames(defs, c, resolve, Names(defs));
    if ORPHANS !in Names(defs) && ORPHANS in order {
      OrphansMean(defs, c, resolve, allModels, s, env, order, IndexOf(order, ORPHANS));
    }
    forall i | Counts(defs, i) ensures DescribesText(known, defs[i].name, defs[i].dsl, c, resolve) {
      DefinedBy(defs, c, resolve, allModels, s, env, i);
      LinkedDescribesText(defs, c, resolve, allModels, env, order, i);
    }
  }

  lemma LinkedDescribesText(defs: seq<Definition>, c: Chars, resolve: Resolver, allModels: seq<string>, env: Env,
                            order: seq<string>, i: int)
    requires Linkable(env, order) && Elements(order) <= Names(defs) + {ORPHANS}
    requires Counts(defs, i) && defs[i].name in Elements(order) && ParsedDsl(c, defs[i].dsl).Some?
    requires Checked(ParsedDsl(c, defs[i].dsl).value, resolve, Names(defs)) == Some(env[defs[i].name])
    ensures DescribesText(FamiliesOf(defs, c, resolve, allModels, env, order), defs[i].name, defs[i].dsl, c, resolve)
  {
    var known := FamiliesOf(defs, c, resolve, allModels, env, order);
    var k := IndexOf(order, defs[i].name);
    KnownByOrder(defs, c, resolve, allModels, env, order, k);
    LinkedMeansFamily(ParsedDsl(c, defs[i].dsl).value, resolve, Names(defs), env, order, k, known);
  }

  lemma KnownByOrder(defs: seq<Definition>, c: Chars, resolve: Resolver, allModels: seq<string>, env: Env,
                     order: seq<string>, k: nat)
    requires Linkable(env, order) && Elements(order) <= Names(defs) + {ORPHANS} && k <= |order|
    ensures KnownUpTo(env, order, k, FamiliesOf(defs, c, resolve, allModels, env, order))
  {
    var known := FamiliesOf(defs, c, resolve, allModels, env, order);
    forall j | 0 <= j < k ensures order[j] in known && known[order[j]] == Meaning(LinkedSet(env, order, j)) {
      assert order[j] in Elements(order) && IndexOf(order, order[j]) == j;
    }
  }

  // ----- only one family for each name

  /** An expression's family depends on what it refers to alone. */
  lemma {:induction false} FamilyDepends(e: Expr, resolve: Resolver, a: Families, b: Families)
    requires forall n | PartOf(SetRef(n), e) :: n in a && n in b && a[n] == b[n]
    ensures FamilyOf(e, resolve, a) == FamilyOf(e, resolve, b)
    decreases e, 1
  {
    match e
    case Name(_) =>
    case EmptyExpr =>
    case SetRef(n) => assert PartOf(SetRef(n), e);
    case AndExpr(es) =>
      OperandsDepend(e, es, resolve, a, b);
      UnionsDepend(es, resolve, a, b);
    case OrExpr(es) => OperandsDepend(e, es, resolve, a, b);
  }

  lemma {:induction false} OperandsDepend(e: Expr, es: seq<Expr>, resolve: Resolver, a: Families, b: Families)
    requires e == AndExpr(es) || e == OrExpr(es)
    requires forall n | PartOf(SetRef(n), e) :: n in a && n in b && a[n] == b[n]
    ensures forall i | 0 <= i < |es| :: FamilyOf(es[i], resolve, a) == FamilyOf(es[i], resolve, b)
    decreases es, 1
  {
    forall i | 0 <= i < |es| ensures FamilyOf(es[i], resolve, a) == FamilyOf(es[i], resolve, b) {
      forall n | PartOf(SetRef(n), es[i]) ensures PartOf(SetRef(n), e) { assert es[i] == e.children[i]; }
      FamilyDepends(es[i], resolve, a, b);
    }
  }

  lemma {:induction false} UnionsDepend(es: seq<Expr>, resolve: Resolver, a: Families, b: Families)
    requires forall i | 0 <= i < |es| :: FamilyOf(es[i], resolve, a) == FamilyOf(es[i], resolve, b)
    ensures Unions(es, resolve, a) == Unions(es, resolve, b)
    decreases es, 0
  {
    if es != [] {
      var n := |es| - 1;
      assert forall i | 0 <= i < n :: es[..n][i] == es[i];
      UnionsDepend(es[..n], resolve, a, b);
    }
  }

  ghost predicate Agree(a: Families, b: Families, names: set<string>) {
    forall n | n in names :: n in a && n in b && a[n] == b[n]
  }

  lemma AgreeNext(defs: seq<Definition>, c: Chars, resolve: Resolver, allModels: seq<string>, a: Families,
                  b: Families, i: int, refs: set<string>)
    requires Describe(defs, c, resolve, allModels, a) && Describe(defs, c, resolve, allModels, b)
    requires Counts(defs, i) && Agree(a, b, refs) && forall n | HasReference(defs[i].dsl, c, n) :: n in refs
    ensures Agree(a, b, {defs[i].name})
  {
    assert DescribesText(a, defs[i].name, defs[i].dsl, c, resolve);
    assert DescribesText(b, defs[i].name, defs[i].dsl, c, resolve);
    var e := ParsedDsl(c, defs[i].dsl).value;
    forall n | PartOf(SetRef(n), e) ensures n in a && n in b && a[n] == b[n] {
      assert HasReference(defs[i].dsl, c, n);
    }
    FamilyDepends(e, resolve, a, b);
  }

  /** The expressions stand under defined names, and refer to all their texts refer to. */
  ghost predicate Written(defs: seq<Definition>, c: Chars, env: Env) {
    && env.Keys <= Names(defs) + {ORPHANS}
    && forall i, n | Counts(defs, i) && HasReference(defs[i].dsl, c, n) ::
         defs[i].name in env && n in RefNames(env[defs[i].name])
  }

  lemma GivenIsWritten(defs: seq<Definition>, c: Chars, resolve: Resolver, allModels: seq<string>, s: Source,
                       env: Env)
    requires Gives(defs, c, resolve, allModels, s, env)
    ensures Written(defs, c, env)
  {
    GatheredNames(defs, c, resolve, Names(defs));
    forall i, n | Counts(defs, i) && HasReference(defs[i].dsl, c, n)
      ensures defs[i].name in env && n in RefNames(env[defs[i].name])
    {
      DefinedBy(defs, c, resolve, allModels, s, env, i);
    }
  }

  /** Where the references can be put in order, the texts leave no choice of families. */
  lemma {:induction false} FamiliesAreUnique(defs: seq<Definition>, c: Chars, resolve: Resolver,
                                             allModels: seq<string>, env: Env, order: seq<string>, k: nat,
                                             a: Families, b: Families)
    requires Written(defs, c, env) && Linkable(env, order)
    requires Describe(defs, c, resolve, allModels, a) && Describe(defs, c, resolve, allModels, b)
    requires k < |order|
    ensures Agree(a, b, {order[k]})
  {
    forall n | n in Elements(order[..k]) ensures n in a && n in b && a[n] == b[n] {
      var j :| 0 <= j < k && order[j] == n;
      FamiliesAreUnique(defs, c, resolve, allModels, env, order, j, a, b);
      assert n in {order[j]};
    }
    AgreeAt(defs, c, resolve, allModels, env, order, k, a, b);
  }

  lemma AgreeAt(defs: seq<Definition>, c: Chars, resolve: Resolver, allModels: seq<string>, env: Env,
                order: seq<string>, k: nat, a: Families, b: Families)
    requires Written(defs, c, env) && Linkable(env, order) && k < |order|
    requires Describe(defs, c, resolve, allModels, a) && Describe(defs, c, resolve, allModels, b)
    requires Agree(a, b, Elements(order[..k]))
    ensures Agree(a, b, {order[k]})
  {
    if order[k] in Names(defs) {
      var i := CountingDefinition(defs, order[k]);
      forall n | HasReference(defs[i].dsl, c, n) ensures n in Elements(order[..k]) {
        assert n in RefNames(env[order[k]]);
      }
      AgreeNext(defs, c, resolve, allModels, a, b, i, Elements(order[..k]));
    }
  }
}
