/** The DSL's grammar: the parser decides it and reads back prints. */
module MatrixGrammar {
  import opened Options
  import opened MatrixDsl
  import opened MatrixParser

  /** Derivation trees: alternations of conjunctions of atoms, with parentheses kept. */
  datatype Alternation = One(c: Conjunction) | Either(c: Conjunction, more: Alternation)
  datatype Conjunction = Just(a: Atom) | Both(a: Atom, rest: Conjunction)
  datatype Atom = Id(id: string) | Reference(name: string) | Group(body: Alternation)

  /** The tokens a derivation spells. */
  function OrYield(a: Alternation): seq<Token> {
    match a
    case One(c) => AndYield(c)
    case Either(c, more) => AndYield(c) + [OrTok] + OrYield(more)
  }

  function AndYield(c: Conjunction): seq<Token> {
    match c
    case Just(a) => AtomYield(a)
    case Both(a, rest) => AtomYield(a) + [AndTok] + AndYield(rest)
  }

  function AtomYield(a: Atom): seq<Token> {
    match a
    case Id(v) => [Ident(v)]
    case Reference(v) => [RefTok(v)]
    case Group(body) => [LParen] + OrYield(body) + [RParen]
  }

  /** The expression a derivation denotes. */
  function OrExprs(a: Alternation): (es: seq<Expr>)
    ensures es != []
    decreases a, 0
  {
    match a
    case One(c) => [AndMeaning(c)]
    case Either(c, more) => [AndMeaning(c)] + OrExprs(more)
  }

  function AndExprs(c: Conjunction): (es: seq<Expr>)
    ensures es != []
    decreases c, 0
  {
    match c
    case Just(a) => [AtomMeaning(a)]
    case Both(a, rest) => [AtomMeaning(a)] + AndExprs(rest)
  }

  function OrMeaning(a: Alternation): Expr
    decreases a, 1
  {
    var es := OrExprs(a);
    if |es| == 1 then es[0] else OrExpr(es)
  }

  function AndMeaning(c: Conjunction): Expr
    decreases c, 1
  {
    var es := AndExprs(c);
    if |es| == 1 then es[0] else AndExpr(es)
  }

  function AtomMeaning(a: Atom): Expr
    decreases a, 0
  {
    match a
    case Id(v) => Name(v)
    case Reference(v) => SetRef(v)
    case Group(body) => OrMeaning(body)
  }

  // ----- every derivation is parsed

  lemma {:induction false} ParsesOrList(a: Alternation, rest: seq<Token>)
    requires Head(rest) != OrTok && Head(rest) != AndTok
    ensures OrListOf(OrYield(a) + rest) == Done(OrExprs(a), rest)
    decreases a, 1
  {
    match a
    case One(c) =>
      ParsesAnd(c, rest);
      assert [AndMeaning(c)] + [] == [AndMeaning(c)];
    case Either(c, more) =>
      var behind := [OrTok] + (OrYield(more) + rest);
      assert OrYield(a) + rest == AndYield(c) + behind;
      ParsesAnd(c, behind);
      assert behind[1..] == OrYield(more) + rest;
      ParsesOrList(more, rest);
  }

  lemma {:induction false} ParsesOr(a: Alternation, rest: seq<Token>)
    requires Head(rest) != OrTok && Head(rest) != AndTok
    ensures OrOf(OrYield(a) + rest) == Done(OrMeaning(a), rest)
    decreases a, 2
  {
    ParsesOrList(a, rest);
  }

  lemma {:induction false} ParsesAndList(c: Conjunction, rest: seq<Token>)
    requires Head(rest) != AndTok
    ensures AndListOf(AndYield(c) + rest) == Done(AndExprs(c), rest)
    decreases c, 1
  {
    match c
    case Just(a) =>
      ParsesAtom(a, rest);
      assert [AtomMeaning(a)] + [] == [AtomMeaning(a)];
    case Both(a, more) =>
      var behind := [AndTok] + (AndYield(more) + rest);
      assert AndYield(c) + rest == AtomYield(a) + behind;
      ParsesAtom(a, behind);
      assert behind[1..] == AndYield(more) + rest;
      ParsesAndList(more, rest);
  }

  lemma {:induction false} ParsesAnd(c: Conjunction, rest: seq<Token>)
    requires Head(rest) != AndTok
    ensures AndOf(AndYield(c) + rest) == Done(AndMeaning(c), rest)
    decreases c, 2
  {
    ParsesAndList(c, rest);
  }

  lemma {:induction false} ParsesAtom(a: Atom, rest: seq<Token>)
    ensures AtomOf(AtomYield(a) + rest) == Done(AtomMeaning(a), rest)
    decreases a, 1
  {
    var ts := AtomYield(a) + rest;
    match a
    case Id(_) =>
      assert ts[1..] == rest;
    case Reference(_) =>
      assert ts[1..] == rest;
    case Group(body) =>
      var behind := [RParen] + rest;
      assert ts[1..] == OrYield(body) + behind;
      ParsesOr(body, behind);
      assert behind[1..] == rest;
  }

  // ----- everything parsed has a derivation

  lemma JoinedBy(first: seq<Token>, op: Token, rest: seq<Token>, more: seq<Token>, behind: seq<Token>)
    requires rest != [] && rest[0] == op && rest[1..] == more + behind
    ensures first + rest == (first + [op] + more) + behind
  {
    assert rest == [op] + (more + behind);
  }

  lemma {:induction false} DerivesOrList(ts: seq<Token>) returns (a: Alternation)
    requires OrListOf(ts).Done?
    ensures ts == OrYield(a) + OrListOf(ts).rest && OrExprs(a) == OrListOf(ts).value
    decreases |ts|, 4
  {
    var c := DerivesAnd(ts);
    var rest := AndOf(ts).rest;
    if Head(rest) == OrTok {
      var more := DerivesOrList(rest[1..]);
      var r := OrListOf(rest[1..]);
      a := Either(c, more);
      assert OrListOf(ts) == Operands([AndMeaning(c)], r);
      JoinedBy(AndYield(c), OrTok, rest, OrYield(more), r.rest);
    } else {
      a := One(c);
      assert [AndMeaning(c)] + [] == [AndMeaning(c)];
    }
  }

  lemma {:induction false} DerivesAnd(ts: seq<Token>) returns (c: Conjunction)
    requires AndOf(ts).Done?
    ensures ts == AndYield(c) + AndOf(ts).rest && AndMeaning(c) == AndOf(ts).value
    decreases |ts|, 3
  {
    c := DerivesAndList(ts);
  }

  lemma {:induction false} DerivesAndList(ts: seq<Token>) returns (c: Conjunction)
    requires AndListOf(ts).Done?
    ensures ts == AndYield(c) + AndListOf(ts).rest && AndExprs(c) == AndListOf(ts).value
    decreases |ts|, 2
  {
    var a := DerivesAtom(ts);
    var rest := AtomOf(ts).rest;
    if Head(rest) == AndTok {
      var more := DerivesAndList(rest[1..]);
      var r := AndListOf(rest[1..]);
      c := Both(a, more);
      assert AndListOf(ts) == Operands([AtomMeaning(a)], r);
      JoinedBy(AtomYield(a), AndTok, rest, AndYield(more), r.rest);
    } else {
      c := Just(a);
      assert [AtomMeaning(a)] + [] == [AtomMeaning(a)];
    }
  }

  lemma {:induction false} DerivesAtom(ts: seq<Token>) returns (a: Atom)
    requires AtomOf(ts).Done?
    ensures ts == AtomYield(a) + AtomOf(ts).rest && AtomMeaning(a) == AtomOf(ts).value
    decreases |ts|, 1
  {
    match ts[0]
    case Ident(v) => a := Id(v);
    case RefTok(v) => a := Reference(v);
    case LParen =>
      var body := DerivesOrList(ts[1..]);
      a := Group(body);
      var rest := OrOf(ts[1..]).rest;
      assert rest == [RParen] + rest[1..];
  }

  lemma {:induction false} YieldHasNoEnd(a: Alternation)
    ensures Eof !in OrYield(a)
    decreases a, 1
  {
    AndYieldHasNoEnd(a.c);
    if a.Either? { YieldHasNoEnd(a.more); }
  }

  lemma {:induction false} AndYieldHasNoEnd(c: Conjunction)
    ensures Eof !in AndYield(c)
    decreases c, 1
  {
    if c.a.Group? { YieldHasNoEnd(c.a.body); }
    if c.Both? { AndYieldHasNoEnd(c.rest); }
  }

  /** The parser accepts exactly the sentences of the grammar, with the meaning of their derivation. */
  lemma ParserDecidesGrammar(ts: seq<Token>, e: Expr)
    requires Eof !in ts
    ensures ExprOf(ts + [Eof]) == Some(e) <==> exists a :: OrYield(a) == ts && OrMeaning(a) == e
  {
    if a :| OrYield(a) == ts && OrMeaning(a) == e {
      ParsesOr(a, [Eof]);
    }
    if ExprOf(ts + [Eof]) == Some(e) {
      var a := DerivesOrList(ts + [Eof]);
      var rest := OrOf(ts + [Eof]).rest;
      YieldHasNoEnd(a);
      EndsTogether(ts, OrYield(a), rest);
      assert OrYield(a) == ts && OrMeaning(a) == e;
    }
  }

  /** Where the first end marker stands. */
  ghost function EndAt(ts: seq<Token>): nat {
    if ts == [] || ts[0] == Eof then 0 else 1 + EndAt(ts[1..])
  }

  lemma {:induction false} EndBehind(a: seq<Token>, b: seq<Token>)
    requires Eof !in a && Head(b) == Eof
    ensures EndAt(a + b) == |a|
  {
    if a == [] {
      assert a + b == b;
    } else {
      EndBehind(a[1..], b);
      assert (a + b)[1..] == a[1..] + b;
    }
  }

  lemma EndsTogether(ts: seq<Token>, y: seq<Token>, rest: seq<Token>)
    requires Eof !in ts && Eof !in y && ts + [Eof] == y + rest && Head(rest) == Eof
    ensures ts == y
  {
    EndBehind(ts, [Eof]);
    EndBehind(y, rest);
    assert ts == (ts + [Eof])[..|ts|] && y == (y + rest)[..|y|];
  }

  // ----- well-formed trees

  predicate NameOk(c: Chars, v: string) {
    v != "" && forall i | 0 <= i < |v| :: c.IsIdent(v[i])
  }

  predicate RefOk(c: Chars, v: string) {
    v != "" && forall i | 0 <= i < |v| :: c.IsRef(v[i])
  }

  /** Names the tokenizer can read, and at least two operands under every operator. */
  predicate WellFormed(c: Chars, e: Expr) {
    match e
    case Name(v) => NameOk(c, v)
    case SetRef(v) => RefOk(c, v)
    case AndExpr(es) => |es| >= 2 && forall i | 0 <= i < |es| :: WellFormed(c, es[i])
    case OrExpr(es) => |es| >= 2 && forall i | 0 <= i < |es| :: WellFormed(c, es[i])
    case EmptyExpr => false
  }

  predicate TokenOk(c: Chars, t: Token) {
    match t
    case Ident(v) => NameOk(c, v)
    case RefTok(v) => RefOk(c, v)
    case Eof => false
    case _ => true
  }

  ghost predicate TokensOk(c: Chars, ts: seq<Token>) {
    forall t | t in ts :: TokenOk(c, t)
  }

  lemma {:induction false} LexTokensOk(c: Chars, s: string)
    requires Lex(c, s).Some?
    ensures TokensOk(c, Lex(c, s).value)
    decreases |s|
  {
    if s != [] {
      match FrontOf(c, s)
      case Space => LexTokensOk(c, s[1..]);
      case Tok(_, n) => LexTokensOk(c, s[n..]);
    }
  }

  lemma {:induction false} OrMeaningWellFormed(c: Chars, a: Alternation)
    requires TokensOk(c, OrYield(a))
    ensures forall i | 0 <= i < |OrExprs(a)| :: WellFormed(c, OrExprs(a)[i])
    ensures WellFormed(c, OrMeaning(a))
    decreases a, 1
  {
    AndMeaningWellFormed(c, a.c);
    if a.Either? { OrMeaningWellFormed(c, a.more); }
  }

  lemma {:induction false} AndMeaningWellFormed(c: Chars, k: Conjunction)
    requires TokensOk(c, AndYield(k))
    ensures forall i | 0 <= i < |AndExprs(k)| :: WellFormed(c, AndExprs(k)[i])
    ensures WellFormed(c, AndMeaning(k))
    decreases k, 1
  {
    AtomMeaningWellFormed(c, k.a);
    if k.Both? { AndMeaningWellFormed(c, k.rest); }
  }

  lemma {:induction false} AtomMeaningWellFormed(c: Chars, a: Atom)
    requires TokensOk(c, AtomYield(a))
    ensures WellFormed(c, AtomMeaning(a))
    decreases a, 1
  {
    match a
    case Id(v) => assert Ident(v) in AtomYield(a);
    case Reference(v) => assert RefTok(v) in AtomYield(a);
    case Group(body) => OrMeaningWellFormed(c, body);
  }

  /** Everything the parser accepts is a well-formed tree. */
  lemma AcceptedIsWellFormed(c: Chars, input: string)
    requires ParsedDsl(c, input).Some?
    ensures WellFormed(c, ParsedDsl(c, input).value)
  {
    var ts, e := Lex(c, input).value, ParsedDsl(c, input).value;
    LexTokensOk(c, input);
    ParserDecidesGrammar(ts, e);
    var a :| OrYield(a) == ts && OrMeaning(a) == e;
    OrMeaningWellFormed(c, a);
  }

  // ----- printing

  /** The derivation that prints a tree: parentheses everywhere except around AND directly inside OR. */
  function OrForm(e: Expr): Alternation
    requires Printable(e)
    decreases e, if e.OrExpr? then 0 else if e.AndExpr? then 1 else 2
  {
    match e
    case OrExpr(es) => OrForms(es)
    case _ => One(AndForm(e))
  }

  function AndForm(e: Expr): Conjunction
    requires Printable(e)
    decreases e, if e.OrExpr? then 2 else if e.AndExpr? then 0 else 1
  {
    match e
    case AndExpr(es) => AndForms(es)
    case _ => Just(AtomForm(e))
  }

  function AtomForm(e: Expr): Atom
    requires Printable(e)
    decreases e, if e.OrExpr? then 1 else if e.AndExpr? then 2 else 0
  {
    match e
    case Name(v) => Id(v)
    case SetRef(v) => Reference(v)
    case _ => Group(OrForm(e))
  }

  function OrForms(es: seq<Expr>): Alternation
    requires es != [] && forall i | 0 <= i < |es| :: Printable(es[i])
    decreases es, 3
  {
    if |es| == 1 then One(AndForm(es[0])) else Either(AndForm(es[0]), OrForms(es[1..]))
  }

  function AndForms(es: seq<Expr>): Conjunction
    requires es != [] && forall i | 0 <= i < |es| :: Printable(es[i])
    decreases es, 3
  {
    if |es| == 1 then Just(AtomForm(es[0])) else Both(AtomForm(es[0]), AndForms(es[1..]))
  }

  lemma {:induction false} WellFormedIsPrintable(c: Chars, e: Expr)
    requires WellFormed(c, e)
    ensures Printable(e)
  {
    if e.AndExpr? || e.OrExpr? {
      forall i | 0 <= i < |e.children| ensures Printable(e.children[i]) {
        WellFormedIsPrintable(c, e.children[i]);
      }
    }
  }

  function Print(e: Expr): seq<Token>
    requires Printable(e)
  {
    OrYield(OrForm(e))
  }

  lemma {:induction false} OrFormMeaning(e: Expr)
    requires Printable(e)
    ensures OrMeaning(OrForm(e)) == e
    decreases e, if e.OrExpr? then 0 else if e.AndExpr? then 1 else 2
  {
    if e.OrExpr? {
      OrFormsMeaning(e.children);
    } else {
      AndFormMeaning(e);
    }
  }

  lemma {:induction false} AndFormMeaning(e: Expr)
    requires Printable(e)
    ensures AndMeaning(AndForm(e)) == e
    decreases e, if e.OrExpr? then 2 else if e.AndExpr? then 0 else 1
  {
    if e.AndExpr? {
      AndFormsMeaning(e.children);
    } else {
      AtomFormMeaning(e);
    }
  }

  lemma {:induction false} AtomFormMeaning(e: Expr)
    requires Printable(e)
    ensures AtomMeaning(AtomForm(e)) == e
    decreases e, if e.OrExpr? then 1 else if e.AndExpr? then 2 else 0
  {
    if e.AndExpr? || e.OrExpr? { OrFormMeaning(e); }
  }

  lemma {:induction false} OrFormsMeaning(es: seq<Expr>)
    requires es != [] && forall i | 0 <= i < |es| :: Printable(es[i])
    ensures OrExprs(OrForms(es)) == es
    decreases es, 3
  {
    AndFormMeaning(es[0]);
    if |es| > 1 { OrFormsMeaning(es[1..]); }
  }

  lemma {:induction false} AndFormsMeaning(es: seq<Expr>)
    requires es != [] && forall i | 0 <= i < |es| :: Printable(es[i])
    ensures AndExprs(AndForms(es)) == es
    decreases es, 3
  {
    AtomFormMeaning(es[0]);
    if |es| > 1 { AndFormsMeaning(es[1..]); }
  }

  /** The characters of a token. */
  function Text(t: Token): string {
    match t
    case Ident(v) => v
    case RefTok(v) => "+" + v
    case AndTok => "&"
    case OrTok => "|"
    case LParen => "("
    case RParen => ")"
    case Eof => ""
  }

  predicate Blank(c: Chars, s: string) {
    forall i | 0 <= i < |s| :: c.isSpace(s[i])
  }

  /** The tokens' characters with any spaces before, between and behind them. */
  function Spell(ts: seq<Token>, gaps: seq<string>): string
    requires |gaps| == |ts| + 1
  {
    gaps[0] + if ts == [] then "" else Text(ts[0]) + Spell(ts[1..], gaps[1..])
  }

  predicate IsWord(t: Token) {
    t.Ident? || t.RefTok?
  }

  /** No two words stand side by side. */
  ghost predicate Separated(ts: seq<Token>) {
    forall i | 0 <= i < |ts| - 1 :: !(IsWord(ts[i]) && IsWord(ts[i + 1]))
  }

  lemma {:induction false} OrYieldSeparated(a: Alternation)
    ensures OrYield(a) != [] && Separated(OrYield(a))
    decreases a, 1
  {
    AndYieldSeparated(a.c);
    if a.Either? { OrYieldSeparated(a.more); }
  }

  lemma {:induction false} AndYieldSeparated(k: Conjunction)
    ensures AndYield(k) != [] && Separated(AndYield(k))
    decreases k, 1
  {
    if k.a.Group? { OrYieldSeparated(k.a.body); }
    if k.Both? { AndYieldSeparated(k.rest); }
  }

  lemma {:induction false} LexGap(c: Chars, gap: string, rest: string)
    requires Blank(c, gap)
    ensures Lex(c, gap + rest) == Lex(c, rest)
  {
    if gap == [] {
      assert gap + rest == rest;
    } else {
      LexGap(c, gap[1..], rest);
      assert (gap + rest)[1..] == gap[1..] + rest;
    }
  }

  lemma {:induction false} SpanWord(p: char -> bool, word: string, rest: string)
    requires forall i | 0 <= i < |word| :: p(word[i])
    requires rest != "" ==> !p(rest[0])
    ensures Span(p, word + rest) == |word|
  {
    if word == [] {
      assert word + rest == rest;
    } else {
      SpanWord(p, word[1..], rest);
      assert (word + rest)[1..] == word[1..] + rest;
    }
  }

  lemma IdentIsNoMark(c: Chars, ch: char)
    requires c.Valid() && c.IsIdent(ch)
    ensures !c.isSpace(ch) && ch != '&' && ch != '|' && ch != '(' && ch != ')' && ch != '+'
  {
    assert '_' in PUNCTUATION && '-' in PUNCTUATION && '.' in PUNCTUATION;
    MarksArePunctuation();
  }

  lemma MarksArePunctuation()
    ensures '&' in PUNCTUATION && '|' in PUNCTUATION && '(' in PUNCTUATION && ')' in PUNCTUATION && '+' in PUNCTUATION
  {
  }

  lemma FrontOfIdent(c: Chars, v: string, rest: string)
    requires c.Valid() && NameOk(c, v) && (rest != "" ==> !c.IsRef(rest[0]))
    ensures FrontOf(c, v + rest) == Tok(Ident(v), |v|)
  {
    IdentIsNoMark(c, v[0]);
    SpanWord(c.IsIdent, v, rest);
    assert (v + rest)[0] == v[0] && (v + rest)[..|v|] == v;
  }

  lemma FrontOfRef(c: Chars, v: string, rest: string)
    requires c.Valid() && RefOk(c, v) && (rest != "" ==> !c.IsRef(rest[0]))
    ensures FrontOf(c, "+" + v + rest) == Tok(RefTok(v), |v| + 1)
  {
    MarksArePunctuation();
    SpanWord(c.IsRef, v, rest);
    var s := "+" + v + rest;
    assert s[0] == '+' && s[1..] == v + rest && s[1..|v| + 1] == v;
  }

  /** A token's characters are read back as the token when no word runs into the next one. */
  lemma FrontOfText(c: Chars, t: Token, rest: string)
    requires c.Valid() && TokenOk(c, t)
    requires IsWord(t) && rest != "" ==> !c.IsRef(rest[0])
    ensures FrontOf(c, Text(t) + rest) == Tok(t, |Text(t)|)
  {
    match t
    case Ident(v) => FrontOfIdent(c, v, rest);
    case RefTok(v) => FrontOfRef(c, v, rest);
    case _ => MarksArePunctuation();
  }

  lemma {:induction false} LexSpell(c: Chars, ts: seq<Token>, gaps: seq<string>)
    requires c.Valid() && TokensOk(c, ts) && Separated(ts)
    requires |gaps| == |ts| + 1 && forall i | 0 <= i < |gaps| :: Blank(c, gaps[i])
    ensures Lex(c, Spell(ts, gaps)) == Some(ts)
  {
    if ts == [] {
      LexGap(c, gaps[0], "");
    } else {
      var rest := Spell(ts[1..], gaps[1..]);
      LexGap(c, gaps[0], Text(ts[0]) + rest);
      SpellFront(c, ts[0], ts[1..], gaps[1..]);
      FrontOfText(c, ts[0], rest);
      assert (Text(ts[0]) + rest)[|Text(ts[0])|..] == rest;
      LexSpell(c, ts[1..], gaps[1..]);
      assert [ts[0]] + ts[1..] == ts;
    }
  }

  lemma FrontText(c: Chars, s: string)
    requires s != [] && FrontOf(c, s).Tok?
    ensures Text(FrontOf(c, s).token) == s[..FrontOf(c, s).length]
  {
    if s[0] == '+' { assert s[..FrontOf(c, s).length] == [s[0]] + s[1..FrontOf(c, s).length]; }
  }

  /** Every text that has tokens is those tokens with blank gaps. */
  lemma {:induction false} LexedIsSpelled(c: Chars, s: string) returns (gaps: seq<string>)
    requires Lex(c, s).Some?
    ensures |gaps| == |Lex(c, s).value| + 1 && forall i | 0 <= i < |gaps| :: Blank(c, gaps[i])
    ensures Spell(Lex(c, s).value, gaps) == s
    decreases |s|
  {
    if s == [] {
      gaps := [""];
    } else {
      match FrontOf(c, s)
      case Space =>
        var rest := LexedIsSpelled(c, s[1..]);
        gaps := [[s[0]] + rest[0]] + rest[1..];
        assert gaps[1..] == rest[1..];
        assert s == [s[0]] + s[1..];
      case Tok(t, n) =>
        var rest := LexedIsSpelled(c, s[n..]);
        gaps := [""] + rest;
        FrontText(c, s);
        assert gaps[1..] == rest && Lex(c, s).value[1..] == Lex(c, s[n..]).value;
        assert s == s[..n] + s[n..];
    }
  }

  /** The text spells the derivation, with blank gaps. */
  ghost predicate Spells(c: Chars, a: Alternation, gaps: seq<string>, s: string) {
    && TokensOk(c, OrYield(a)) && |gaps| == |OrYield(a)| + 1 && (forall i | 0 <= i < |gaps| :: Blank(c, gaps[i]))
    && s == Spell(OrYield(a), gaps)
  }

  /** The texts that parse are exactly the spellings of derivations, with the meaning of the derivation. */
  lemma AcceptedTexts(c: Chars, s: string, e: Expr)
    requires c.Valid()
    ensures ParsedDsl(c, s) == Some(e) <==> exists a, gaps :: OrMeaning(a) == e && Spells(c, a, gaps, s)
  {
    if ParsedDsl(c, s) == Some(e) {
      var ts := Lex(c, s).value;
      LexTokensOk(c, s);
      assert Eof !in ts;
      ParserDecidesGrammar(ts, e);
      var a :| OrYield(a) == ts && OrMeaning(a) == e;
      var gaps := LexedIsSpelled(c, s);
      assert Spells(c, a, gaps, s);
    }
    if a, gaps :| OrMeaning(a) == e && Spells(c, a, gaps, s) {
      OrYieldSeparated(a);
      LexSpell(c, OrYield(a), gaps);
      YieldHasNoEnd(a);
      ParserDecidesGrammar(OrYield(a), e);
    }
  }

  lemma SpaceIsNoRef(c: Chars, ch: char)
    requires c.Valid() && c.isSpace(ch)
    ensures !c.IsRef(ch)
  {
    assert ch !in PUNCTUATION;
    assert '_' in PUNCTUATION && '-' in PUNCTUATION && '.' in PUNCTUATION && ':' in PUNCTUATION;
  }

  lemma MarkIsNoRef(c: Chars, t: Token)
    requires c.Valid() && TokenOk(c, t) && !IsWord(t)
    ensures Text(t) != "" && !c.IsRef(Text(t)[0])
  {
    assert '&' in PUNCTUATION && '|' in PUNCTUATION && '(' in PUNCTUATION && ')' in PUNCTUATION;
  }

  /** What is spelled behind a word cannot continue it. */
  lemma SpellFront(c: Chars, t: Token, ts: seq<Token>, gaps: seq<string>)
    requires c.Valid() && TokensOk(c, ts) && Separated([t] + ts)
    requires |gaps| == |ts| + 1 && forall i | 0 <= i < |gaps| :: Blank(c, gaps[i])
    ensures IsWord(t) && Spell(ts, gaps) != "" ==> !c.IsRef(Spell(ts, gaps)[0])
  {
    if IsWord(t) {
      if gaps[0] != "" {
        SpaceIsNoRef(c, gaps[0][0]);
      } else if ts != [] {
        assert ([t] + ts)[0] == t && ([t] + ts)[1] == ts[0];
        assert ts[0] in ts;
        MarkIsNoRef(c, ts[0]);
      }
    }
  }

  /** Printing a well-formed tree, with any spaces between the tokens, and parsing the text gives the tree back. */
  lemma PrintThenParse(c: Chars, e: Expr, gaps: seq<string>)
    requires c.Valid() && WellFormed(c, e)
    ensures Printable(e)
    ensures |gaps| == |Print(e)| + 1 && (forall i | 0 <= i < |gaps| :: Blank(c, gaps[i])) ==>
              ParsedDsl(c, Spell(Print(e), gaps)) == Some(e)
  {
    WellFormedIsPrintable(c, e);
    if |gaps| == |Print(e)| + 1 && forall i | 0 <= i < |gaps| :: Blank(c, gaps[i]) {
      var ts := Print(e);
      OrFormMeaning(e);
      PrintTokensOk(c, OrForm(e));
      OrYieldSeparated(OrForm(e));
      LexSpell(c, ts, gaps);
      YieldHasNoEnd(OrForm(e));
      ParserDecidesGrammar(ts, e);
    }
  }

  lemma {:induction false} PrintTokensOk(c: Chars, a: Alternation)
    requires WellFormed(c, OrMeaning(a))
    ensures TokensOk(c, OrYield(a))
    decreases a, 1
  {
    assert forall i | 0 <= i < |OrExprs(a)| :: WellFormed(c, OrExprs(a)[i]);
    OrExprsTokensOk(c, a);
  }

  lemma {:induction false} OrExprsTokensOk(c: Chars, a: Alternation)
    requires forall i | 0 <= i < |OrExprs(a)| :: WellFormed(c, OrExprs(a)[i])
    ensures TokensOk(c, OrYield(a))
    decreases a, 0
  {
    assert OrExprs(a)[0] == AndMeaning(a.c);
    AndMeaningTokensOk(c, a.c);
    if a.Either? {
      assert forall i | 0 <= i < |OrExprs(a.more)| :: OrExprs(a.more)[i] == OrExprs(a)[i + 1];
      OrExprsTokensOk(c, a.more);
    }
  }

  lemma {:induction false} AndMeaningTokensOk(c: Chars, k: Conjunction)
    requires WellFormed(c, AndMeaning(k))
    ensures TokensOk(c, AndYield(k))
    decreases k, 1
  {
    assert forall i | 0 <= i < |AndExprs(k)| :: WellFormed(c, AndExprs(k)[i]);
    AndExprsTokensOk(c, k);
  }

  lemma {:induction false} AndExprsTokensOk(c: Chars, k: Conjunction)
    requires forall i | 0 <= i < |AndExprs(k)| :: WellFormed(c, AndExprs(k)[i])
    ensures TokensOk(c, AndYield(k))
    decreases k, 0
  {
    assert AndExprs(k)[0] == AtomMeaning(k.a);
    if k.a.Group? { PrintTokensOk(c, k.a.body); }
    if k.Both? {
      assert forall i | 0 <= i < |AndExprs(k.rest)| :: AndExprs(k.rest)[i] == AndExprs(k)[i + 1];
      AndExprsTokensOk(c, k.rest);
    }
  }
}
