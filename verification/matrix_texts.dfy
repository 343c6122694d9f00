/** How the smallest texts read, character by character, and what a program compiled from one describes. */
module MatrixTexts {
  import opened Options
  import opened MatrixDsl
  import opened MatrixParser
  import opened MatrixGrammar
  import opened MatrixOrder
  import opened MatrixLink
  import opened MatrixSource
  import opened MatrixFamilies
  import opened MatrixSolver
  import opened MatrixCompile
  import MatrixNodes

  /** Letters, digits and the three marks a name may have. */
  predicate NameChar(c: Chars, ch: char) {
    c.isLetter(ch) || c.isDigit(ch) || ch == '_' || ch == '-' || ch == '.'
  }

  ghost predicate Word(c: Chars, s: string) {
    s != "" && forall k | 0 <= k < |s| :: NameChar(c, s[k])
  }

  /** A reference may have colons as well. */
  ghost predicate Reference(c: Chars, s: string) {
    s != "" && forall k | 0 <= k < |s| :: NameChar(c, s[k]) || s[k] == ':'
  }

  function Of(x: string): Conjunction {
    Just(Id(x))
  }

  function NoGaps(n: nat): seq<string> {
    seq(n + 1, _ => "")
  }

  function Glued(ts: seq<Token>): string {
    if ts == [] then "" else Text(ts[0]) + Glued(ts[1..])
  }

  lemma {:induction false} SpellsGlued(ts: seq<Token>)
    ensures Spell(ts, NoGaps(|ts|)) == Glued(ts)
  {
    if ts != [] {
      SpellsGlued(ts[1..]);
      SpellStep(ts, NoGaps(|ts|));
      assert NoGaps(|ts|)[1..] == NoGaps(|ts[1..]|);
    }
  }

  lemma SpellStep(ts: seq<Token>, gaps: seq<string>)
    requires ts != [] && |gaps| == |ts| + 1 && gaps[0] == ""
    ensures Spell(ts, gaps) == Text(ts[0]) + Spell(ts[1..], gaps[1..])
  {
  }

  lemma GluedFirst(t: Token, ts: seq<Token>)
    ensures Glued([t] + ts) == Text(t) + Glued(ts)
  {
    assert ([t] + ts)[1..] == ts;
  }

  lemma Regrouped(a: string, b: string, c: string)
    ensures a + (b + c) == a + b + c
  {
  }

  lemma GluedThree(a: Token, b: Token, c: Token)
    ensures Glued([a, b, c]) == Text(a) + (Text(b) + Text(c))
  {
    assert [a, b, c] == [a] + [b, c] && [b, c] == [b] + [c] && [c] == [c] + [];
    GluedFirst(c, []);
    GluedFirst(b, [c]);
    GluedFirst(a, [b, c]);
  }

  lemma GluedFive(a: Token, b: Token, c: Token, d: Token, e: Token)
    ensures Glued([a, b, c, d, e]) == Text(a) + (Text(b) + (Text(c) + (Text(d) + Text(e))))
  {
    GluedThree(c, d, e);
    assert [a, b, c, d, e] == [a] + [b, c, d, e] && [b, c, d, e] == [b] + [c, d, e];
    GluedFirst(b, [c, d, e]);
    GluedFirst(a, [b, c, d, e]);
  }

  lemma FlatFive(a: string, b: string, c: string, d: string, e: string)
    ensures a + (b + (c + (d + e))) == a + b + c + d + e
  {
    Regrouped(c, d, e);
    Regrouped(b, c + d, e);
    Regrouped(b, c, d);
    Regrouped(a, b + c + d, e);
    Regrouped(a, b + c, d);
    Regrouped(a, b, c);
  }

  lemma OneAtom(x: string)
    ensures AndYield(Of(x)) == [Ident(x)] && AndExprs(Of(x)) == [Name(x)] && AndMeaning(Of(x)) == Name(x)
    ensures OrYield(One(Of(x))) == [Ident(x)] && OrExprs(One(Of(x))) == [Name(x)]
  {
  }

  /** A derivation whose tokens spell the text gives its meaning. */
  lemma TextMeans(c: Chars, a: Alternation, s: string, e: Expr)
    requires c.Valid() && TokensOk(c, OrYield(a)) && s == Glued(OrYield(a)) && OrMeaning(a) == e
    ensures ParsedDsl(c, s) == Some(e)
  {
    SpellsGlued(OrYield(a));
    assert Spells(c, a, NoGaps(|OrYield(a)|), s);
    AcceptedTexts(c, s, e);
  }

  /** `&` reads as a conjunction, `|` as a choice. */
  lemma PairTexts(c: Chars, x: string, y: string)
    requires c.Valid() && Word(c, x) && Word(c, y)
    ensures ParsedDsl(c, x + "&" + y) == Some(AndExpr([Name(x), Name(y)]))
    ensures ParsedDsl(c, x + "|" + y) == Some(OrExpr([Name(x), Name(y)]))
  {
    OneAtom(x);
    OneAtom(y);
    var both, either := One(Both(Id(x), Of(y))), Either(Of(x), One(Of(y)));
    assert AndExprs(both.c) == [Name(x), Name(y)] && OrExprs(either) == [Name(x), Name(y)];
    assert OrYield(both) == [Ident(x), AndTok, Ident(y)] && OrYield(either) == [Ident(x), OrTok, Ident(y)];
    assert OrExprs(both) == [AndMeaning(both.c)] && AndMeaning(both.c) == AndExpr([Name(x), Name(y)]);
    GluedThree(Ident(x), AndTok, Ident(y));
    GluedThree(Ident(x), OrTok, Ident(y));
    Regrouped(x, "&", y);
    Regrouped(x, "|", y);
    TextMeans(c, both, x + "&" + y, AndExpr([Name(x), Name(y)]));
    TextMeans(c, either, x + "|" + y, OrExpr([Name(x), Name(y)]));
  }

  /** `&` binds closer than `|`. */
  lemma PrecedenceText(c: Chars, x: string, y: string, z: string)
    requires c.Valid() && Word(c, x) && Word(c, y) && Word(c, z)
    ensures ParsedDsl(c, x + "&" + y + "|" + z) == Some(OrExpr([AndExpr([Name(x), Name(y)]), Name(z)]))
  {
    OneAtom(x);
    OneAtom(y);
    OneAtom(z);
    var both := Both(Id(x), Of(y));
    var a := Either(both, One(Of(z)));
    assert AndExprs(both) == [Name(x), Name(y)] && AndMeaning(both) == AndExpr([Name(x), Name(y)]);
    assert OrExprs(a) == [AndMeaning(both)] + [Name(z)] == [AndMeaning(both), Name(z)];
    assert AndYield(both) == [Ident(x), AndTok, Ident(y)];
    assert OrYield(a) == [Ident(x), AndTok, Ident(y), OrTok, Ident(z)];
    GluedFive(Ident(x), AndTok, Ident(y), OrTok, Ident(z));
    FlatFive(x, "&", y, "|", z);
    TextMeans(c, a, x + "&" + y + "|" + z, OrExpr([AndExpr([Name(x), Name(y)]), Name(z)]));
  }

  lemma ChoiceOfTwo(x: string, y: string)
    ensures var either := Either(Of(x), One(Of(y)));
            OrMeaning(either) == OrExpr([Name(x), Name(y)]) && OrYield(either) == [Ident(x), OrTok, Ident(y)]
  {
    OneAtom(x);
    OneAtom(y);
    assert OrExprs(Either(Of(x), One(Of(y)))) == [Name(x), Name(y)];
  }

  lemma GroupWithReference(x: string, y: string, z: string)
    ensures var pair := Both(Group(Either(Of(x), One(Of(y)))), Just(Atom.Reference(z)));
            && OrMeaning(One(pair)) == AndExpr([OrExpr([Name(x), Name(y)]), SetRef(z)])
            && OrYield(One(pair)) == [LParen, Ident(x), OrTok, Ident(y), RParen, AndTok, RefTok(z)]
  {
    var either := Either(Of(x), One(Of(y)));
    var pair := Both(Group(either), Just(Atom.Reference(z)));
    ChoiceOfTwo(x, y);
    assert AtomMeaning(Group(either)) == OrMeaning(either);
    assert AndExprs(Just(Atom.Reference(z))) == [SetRef(z)];
    assert AndExprs(pair) == [OrMeaning(either), SetRef(z)] && OrExprs(One(pair)) == [AndMeaning(pair)];
    assert AtomYield(Group(either)) == [LParen] + OrYield(either) + [RParen];
    assert AndYield(Just(Atom.Reference(z))) == [RefTok(z)];
    assert AndYield(pair) == AtomYield(Group(either)) + [AndTok] + [RefTok(z)];
  }

  lemma GroupGlued(x: string, y: string, z: string)
    ensures Glued([LParen, Ident(x), OrTok, Ident(y), RParen, AndTok, RefTok(z)]) == "(" + x + "|" + y + ")&+" + z
  {
    var behind := [OrTok, Ident(y), RParen, AndTok, RefTok(z)];
    assert [LParen, Ident(x), OrTok, Ident(y), RParen, AndTok, RefTok(z)] == [LParen] + ([Ident(x)] + behind);
    GluedFirst(LParen, [Ident(x)] + behind);
    GluedFirst(Ident(x), behind);
    GluedFive(OrTok, Ident(y), RParen, AndTok, RefTok(z));
    GroupFlat(x, y, z);
  }

  lemma GroupFlat(x: string, y: string, z: string)
    ensures "(" + (x + ("|" + (y + (")" + ("&" + ("+" + z)))))) == "(" + x + "|" + y + ")&+" + z
  {
    Regrouped("&", "+", z);
    assert "&" + "+" == "&+" && ")" + "&+" == ")&+";
    Regrouped(")", "&+", z);
    FlatFive(x, "|", y, ")&+", z);
    Regrouped("(", x + "|" + y + ")&+", z);
    Regrouped("(", x + "|" + y, ")&+");
    Regrouped("(", x + "|", y);
    Regrouped("(", x, "|");
  }

  lemma GroupTokensOk(c: Chars, x: string, y: string, z: string)
    requires Word(c, x) && Word(c, y) && Reference(c, z)
    ensures TokensOk(c, [LParen, Ident(x), OrTok, Ident(y), RParen, AndTok, RefTok(z)])
  {
  }

  /** Parentheses group, and `+` names a set. */
  lemma GroupedText(c: Chars, x: string, y: string, z: string)
    requires c.Valid() && Word(c, x) && Word(c, y) && Reference(c, z)
    ensures ParsedDsl(c, "(" + x + "|" + y + ")&+" + z) == Some(AndExpr([OrExpr([Name(x), Name(y)]), SetRef(z)]))
  {
    var pair := Both(Group(Either(Of(x), One(Of(y)))), Just(Atom.Reference(z)));
    GroupWithReference(x, y, z);
    GroupGlued(x, y, z);
    GroupTokensOk(c, x, y, z);
    TextMeans(c, One(pair), "(" + x + "|" + y + ")&+" + z, AndExpr([OrExpr([Name(x), Name(y)]), SetRef(z)]));
  }

  // ----- which characters are accepted, and where

  predicate Accepted(c: Chars, ch: char) {
    || c.isSpace(ch) || NameChar(c, ch)
    || ch == ':' || ch == '&' || ch == '|' || ch == '(' || ch == ')' || ch == '+'
  }

  /** The place stands in a reference: a plus before it, and nothing but a name or colons in between. */
  ghost predicate InReference(c: Chars, s: string, i: int)
    requires 0 <= i < |s|
  {
    exists j :: 0 <= j < i && s[j] == '+' && forall k | j < k <= i :: NameChar(c, s[k]) || s[k] == ':'
  }

  /** Any other character anywhere, or a colon outside a reference, makes a text unreadable. */
  lemma {:induction false} ReadCharacters(c: Chars, s: string)
    requires c.Valid() && Lex(c, s).Some?
    ensures forall i | 0 <= i < |s| :: Accepted(c, s[i]) && (s[i] == ':' ==> InReference(c, s, i))
    decreases |s|
  {
    if s != [] {
      var n := match FrontOf(c, s) case Space => 1 case Tok(_, length) => length;
      FrontCharacters(c, s, n);
      ReadCharacters(c, s[n..]);
      forall i | n <= i < |s| ensures Accepted(c, s[i]) && (s[i] == ':' ==> InReference(c, s, i)) {
        assert s[i] == s[n..][i - n];
        if s[i] == ':' { ReferenceBehind(c, s, n, i); }
      }
    }
  }

  lemma FrontCharacters(c: Chars, s: string, n: nat)
    requires c.Valid() && s != []
    requires match FrontOf(c, s) case Space => n == 1 case Tok(_, length) => n == length case Unknown => false
    ensures 0 < n <= |s|
    ensures forall i | 0 <= i < n :: Accepted(c, s[i]) && (s[i] == ':' ==> InReference(c, s, i))
  {
    assert ':' in PUNCTUATION;
    assert forall i | 0 <= i < |s| - 1 :: s[1..][i] == s[i + 1];
    if s[0] == '+' {
      forall i | 0 < i < n ensures Accepted(c, s[i]) && (s[i] == ':' ==> InReference(c, s, i)) {
        assert forall k | 0 <= k < i :: c.IsRef(s[1..][k]);
      }
    }
  }

  lemma ReferenceBehind(c: Chars, s: string, n: nat, i: nat)
    requires n <= i < |s| && InReference(c, s[n..], i - n)
    ensures InReference(c, s, i)
  {
    var t := s[n..];
    var j :| 0 <= j < i - n && t[j] == '+' && forall k | j < k <= i - n :: NameChar(c, t[k]) || t[k] == ':';
    assert s[n + j] == '+';
    forall k | n + j < k <= i ensures NameChar(c, s[k]) || s[k] == ':' {
      assert s[k] == t[k - n];
    }
  }

  // ----- what a single text compiles to

  lemma BothFamily(x: string, y: string, m: string, n: string, resolve: Resolver, known: Families)
    requires resolve(x) == Some(m) && resolve(y) == Some(n)
    ensures FamilyOf(AndExpr([Name(x), Name(y)]), resolve, known) == {{m, n}}
  {
    var es := [Name(x), Name(y)];
    var none: set<string> := {};
    assert FamilyOf(es[0], resolve, known) == {{m}} && FamilyOf(es[1], resolve, known) == {{n}};
    assert es[..1] == [es[0]] && es[..1][..0] == [];
    UnitedFamilies(none, {m});
    UnitedFamilies({m}, {n});
    assert none + {m} == {m} && {m} + {n} == {m, n};
    assert Unions(es[..1], resolve, known) == {{m}};
    assert Unions(es, resolve, known) == {{m, n}};
  }

  lemma UnitedFamilies(a: set<string>, b: set<string>)
    ensures (set x, y | x in {a} && y in {b} :: x + y) == {a + b}
  {
    assert a in {a} && b in {b};
  }

  lemma EitherFamily(x: string, y: string, m: string, n: string, resolve: Resolver, known: Families)
    requires resolve(x) == Some(m) && resolve(y) == Some(n)
    ensures FamilyOf(OrExpr([Name(x), Name(y)]), resolve, known) == {{m}, {n}}
  {
    var es := [Name(x), Name(y)];
    assert FamilyOf(es[0], resolve, known) == {{m}} && FamilyOf(es[1], resolve, known) == {{n}};
    forall s ensures s in FamilyOf(OrExpr(es), resolve, known) <==> s in {{m}, {n}} {
      if s in {{m}, {n}} {
        var i := if s == {m} then 0 else 1;
        assert s in FamilyOf(es[i], resolve, known);
      }
    }
  }

  lemma OneSet(name: string, dsl: string, c: Chars, resolve: Resolver, allModels: seq<string>, p: Program)
    requires MeansItsTexts([Definition(name, dsl)], c, resolve, allModels, p) && ParsedDsl(c, dsl).Some?
    ensures |p.sets| == 1 && p.sets[0].name == name && p.sets[0].dsl == dsl
    ensures exists known :: MatrixNodes.Expansion(p.sets[0].root) == FamilyOf(ParsedDsl(c, dsl).value, resolve, known)
  {
    var defs := [Definition(name, dsl)];
    var known :| Describe(defs, c, resolve, allModels, known)
                 && forall i | 0 <= i < |p.sets| :: CarriesText(defs, known, p.sets[i]);
    assert defs[0] in defs && name in Names(defs);
    var i :| 0 <= i < |p.sets| && p.sets[i].name == name;
    forall j | 0 <= j < |p.sets| ensures p.sets[j].name == name && p.sets[j].dsl == dsl {
      assert CarriesText(defs, known, p.sets[j]);
    }
    assert p.sets[0].name == p.sets[|p.sets| - 1].name;
    assert CarriesText(defs, known, p.sets[0]);
    assert Counts(defs, 0) && DescribesText(known, defs[0].name, defs[0].dsl, c, resolve);
  }

  /** The text `x&y` compiles to the one set of both models, `x|y` to the two sets of one. */
  lemma PairCompiles(c: Chars, name: string, op: string, x: string, y: string, m: string, n: string,
                     resolve: Resolver, allModels: seq<string>, p: Program)
    requires c.Valid() && Word(c, x) && Word(c, y) && resolve(x) == Some(m) && resolve(y) == Some(n)
    requires op == "&" || op == "|"
    requires MeansItsTexts([Definition(name, x + op + y)], c, resolve, allModels, p)
    ensures |p.sets| == 1 && p.sets[0].name == name && p.sets[0].dsl == x + op + y
    ensures MatrixNodes.Expansion(p.sets[0].root) == if op == "&" then {{m, n}} else {{m}, {n}}
  {
    PairTexts(c, x, y);
    OneSet(name, x + op + y, c, resolve, allModels, p);
    var e := ParsedDsl(c, x + op + y).value;
    var known :| MatrixNodes.Expansion(p.sets[0].root) == FamilyOf(e, resolve, known);
    if op == "&" {
      BothFamily(x, y, m, n, resolve, known);
    } else {
      EitherFamily(x, y, m, n, resolve, known);
    }
  }

  // ----- the order of two references

  lemma TwoDependencies(x: string, y: string)
    requires x != y
    ensures Dependencies(AndExpr([SetRef(x), SetRef(y)])) == [x, y]
    ensures Dependencies(OrExpr([SetRef(x), SetRef(y)])) == [x, y]
  {
    var es := [SetRef(x), SetRef(y)];
    assert es[..1] == [SetRef(x)] && es[..1][..0] == [];
    assert RefSequenceIn(es[..1]) == [x] && RefSequenceIn(es) == [x, y];
    assert [x, y][..1] == [x] && [x][..0] == [];
    assert WithNew([], [x]) == [x];
  }

  /** A set written before the two it refers to stands behind both, which stand in the order it mentions them. */
  lemma MentionedInOrder(deps: Deps, a: string, x: string, y: string)
    requires a != x && a != y && x != y
    requires deps == map[a := [x, y], x := [], y := []]
    ensures PostOrderAll(deps, {}, [a, y, x], []) == [x, y, a]
  {
    var names, ds := [a, y, x], [x, y];
    VisitBare(deps, {} + {a}, x, []);
    VisitBare(deps, {} + {a}, y, [x]);
    PostOrderNext(deps, {} + {a}, ds, 0, []);
    PostOrderNext(deps, {} + {a}, ds, 1, []);
    assert ds[..2] == ds;
    PostOrderVisit(deps, {}, a, []);
    assert names[..3] == names;
    PostOrderNext(deps, {}, names, 0, []);
    PostOrderNext(deps, {}, names, 1, []);
    PostOrderNext(deps, {}, names, 2, []);
  }

  lemma VisitBare(deps: Deps, path: set<string>, name: string, order: seq<string>)
    requires name in deps && deps[name] == [] && name !in path && name !in order
    ensures PostOrder(deps, path, name, order) == order + [name]
  {
    PostOrderVisit(deps, path, name, order);
  }
}
