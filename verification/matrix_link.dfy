/** Named expressions, what they refer to, their linked form, and simplification name by name in dependency
    order. */
module MatrixLink {
  import opened Collections
  import opened MatrixDsl
  import MatrixNodes
  import opened MatrixSimplify

  type Node = MatrixNodes.Node
  type Env = map<string, Expr>

  /** The set names an expression refers to. */
  ghost function RefNames(e: Expr): set<string>
    decreases e, 0
  {
    match e
    case SetRef(n) => {n}
    case AndExpr(es) => RefNamesIn(es)
    case OrExpr(es) => RefNamesIn(es)
    case _ => {}
  }

  ghost function RefNamesIn(es: seq<Expr>): set<string>
    decreases es, 0
  {
    if es == [] then {} else RefNamesIn(es[..|es| - 1]) + RefNames(es[|es| - 1])
  }

  /** The references of an expression as it reads, repetitions included. */
  ghost function RefSequence(e: Expr): seq<string>
    decreases e, 0
  {
    match e
    case SetRef(n) => [n]
    case AndExpr(es) => RefSequenceIn(es)
    case OrExpr(es) => RefSequenceIn(es)
    case _ => []
  }

  ghost function RefSequenceIn(es: seq<Expr>): seq<string>
    decreases es, 0
  {
    if es == [] then [] else RefSequenceIn(es[..|es| - 1]) + RefSequence(es[|es| - 1])
  }

  lemma {:induction false} RefSequenceElements(e: Expr)
    ensures Elements(RefSequence(e)) == RefNames(e)
    decreases e, 1
  {
    match e
    case AndExpr(es) => RefSequenceInElements(es);
    case OrExpr(es) => RefSequenceInElements(es);
    case _ =>
  }

  lemma {:induction false} RefSequenceInElements(es: seq<Expr>)
    ensures Elements(RefSequenceIn(es)) == RefNamesIn(es)
    decreases es, 0
  {
    if es != [] {
      var n := |es| - 1;
      RefSequenceInElements(es[..n]);
      RefSequenceElements(es[n]);
      ElementsConcat(RefSequenceIn(es[..n]), RefSequence(es[n]));
    }
  }

  /** The list with every name of s it lacks behind it, each where it first occurs. */
  ghost function WithNew(refs: seq<string>, s: seq<string>): seq<string> {
    if s == [] then refs
    else
      var n := |s| - 1;
      var r := WithNew(refs, s[..n]);
      if s[n] in r then r else r + [s[n]]
  }

  lemma {:induction false} WithNewElements(refs: seq<string>, s: seq<string>)
    ensures Elements(WithNew(refs, s)) == Elements(refs) + Elements(s)
  {
    if s != [] {
      var n := |s| - 1;
      WithNewElements(refs, s[..n]);
      assert s == s[..n] + [s[n]];
      ElementsConcat(s[..n], [s[n]]);
      ElementsConcat(WithNew(refs, s[..n]), [s[n]]);
      assert s[n] in WithNew(refs, s[..n]) ==> s[n] in Elements(WithNew(refs, s[..n]));
    }
  }

  lemma {:induction false} WithNewConcat(refs: seq<string>, a: seq<string>, b: seq<string>)
    ensures WithNew(refs, a + b) == WithNew(WithNew(refs, a), b)
  {
    if b == [] {
      assert a + b == a;
    } else {
      var n := |b| - 1;
      WithNewConcat(refs, a, b[..n]);
      assert (a + b)[..|a + b| - 1] == a + b[..n];
    }
  }

  /** The sets an expression depends on, in the order of first mention. */
  ghost function Dependencies(e: Expr): seq<string> {
    WithNew([], RefSequence(e))
  }

  lemma DependenciesAreRefs(e: Expr)
    ensures Elements(Dependencies(e)) == RefNames(e)
  {
    RefSequenceElements(e);
    WithNewElements([], RefSequence(e));
  }

  /** The leaf names of an expression. */
  ghost function LeafNames(e: Expr): set<string>
    decreases e, 0
  {
    match e
    case Name(id) => {id}
    case AndExpr(es) => LeafNamesIn(es)
    case OrExpr(es) => LeafNamesIn(es)
    case _ => {}
  }

  ghost function LeafNamesIn(es: seq<Expr>): set<string>
    decreases es, 0
  {
    if es == [] then {} else LeafNamesIn(es[..|es| - 1]) + LeafNames(es[|es| - 1])
  }

  lemma {:induction false} ChildRefs(es: seq<Expr>, i: nat)
    requires i < |es|
    ensures RefNames(es[i]) <= RefNamesIn(es)
  {
    if i < |es| - 1 { ChildRefs(es[..|es| - 1], i); }
  }

  /** The names of the order are distinct, defined, and refer only to earlier names. */
  ghost predicate Linkable(env: Env, order: seq<string>) {
    && (forall i, j | 0 <= i < j < |order| :: order[i] != order[j])
    && (forall k | 0 <= k < |order| :: order[k] in env && RefNames(env[order[k]]) <= Elements(order[..k]))
  }

  ghost function IndexOf(order: seq<string>, n: string): (k: nat)
    requires n in order
    ensures k < |order| && order[k] == n
  {
    var k :| 0 <= k < |order| && order[k] == n;
    k
  }

  /** An expression with every reference replaced by a link to the expression it names. */
  ghost function Linked(env: Env, order: seq<string>, k: nat, e: Expr): Node
    requires Linkable(env, order) && k <= |order| && RefNames(e) <= Elements(order[..k])
    decreases k, e, 0
  {
    match e
    case Name(m) => MatrixNodes.Leaf(m)
    case SetRef(n) =>
      assert n in RefNames(e);
      var j := IndexOf(order[..k], n);
      MatrixNodes.Ref(n, Linked(env, order, j, env[order[j]]))
    case AndExpr(es) => MatrixNodes.And(LinkedAll(env, order, k, es))
    case OrExpr(es) => MatrixNodes.Or(LinkedAll(env, order, k, es))
    case EmptyExpr => MatrixNodes.Empty
  }

  ghost function LinkedAll(env: Env, order: seq<string>, k: nat, es: seq<Expr>): (ns: seq<Node>)
    requires Linkable(env, order) && k <= |order| && RefNamesIn(es) <= Elements(order[..k])
    ensures |ns| == |es|
    decreases k, es, 0
  {
    if es == [] then []
    else LinkedAll(env, order, k, es[..|es| - 1]) + [Linked(env, order, k, es[|es| - 1])]
  }

  /** The linked form of a named set. */
  ghost function LinkedSet(env: Env, order: seq<string>, k: nat): Node
    requires Linkable(env, order) && k < |order|
  {
    Linked(env, order, k, env[order[k]])
  }

  // ----- simplifyEmptyRefs on expressions

  ghost function SimplifyExpr(e: Expr, empties: set<string>): Expr
    decreases e, 1
  {
    match e
    case SetRef(n) => if n in empties then EmptyExpr else e
    case AndExpr(es) => CollapseExpr(e, SimplifyExprs(es, empties))
    case OrExpr(es) => CollapseExpr(e, SimplifyExprs(es, empties))
    case _ => e
  }

  ghost function SimplifyExprs(es: seq<Expr>, empties: set<string>): seq<Expr>
    decreases es, 0
  {
    if es == [] then []
    else
      var c := SimplifyExpr(es[|es| - 1], empties);
      SimplifyExprs(es[..|es| - 1], empties) + if c == EmptyExpr then [] else [c]
  }

  function CollapseExpr(e: Expr, es: seq<Expr>): Expr
    requires e.AndExpr? || e.OrExpr?
  {
    if es == [] then EmptyExpr
    else if |es| == 1 then es[0]
    else if e.AndExpr? then AndExpr(es) else OrExpr(es)
  }

  lemma {:induction false} SimplifyRefs(e: Expr, empties: set<string>)
    ensures RefNames(SimplifyExpr(e, empties)) <= RefNames(e)
    decreases e, 1
  {
    match e
    case AndExpr(es) =>
      SimplifyRefsIn(es, empties);
      OneRef(SimplifyExprs(es, empties));
    case OrExpr(es) =>
      SimplifyRefsIn(es, empties);
      OneRef(SimplifyExprs(es, empties));
    case _ =>
  }

  lemma {:induction false} SimplifyRefsIn(es: seq<Expr>, empties: set<string>)
    ensures RefNamesIn(SimplifyExprs(es, empties)) <= RefNamesIn(es)
    decreases es, 0
  {
    if es != [] {
      var k := |es| - 1;
      SimplifyRefsIn(es[..k], empties);
      SimplifyRefs(es[k], empties);
      RefNamesNext(SimplifyExprs(es[..k], empties), SimplifyExpr(es[k], empties));
    }
  }

  lemma RefNamesNext(es: seq<Expr>, e: Expr)
    ensures RefNamesIn(es + [e]) == RefNamesIn(es) + RefNames(e)
    ensures RefNamesIn(es + []) == RefNamesIn(es)
  {
    assert (es + [e])[..|es|] == es;
    assert es + [] == es;
  }

  lemma OneRef(es: seq<Expr>)
    ensures |es| == 1 ==> RefNamesIn(es) == RefNames(es[0])
  {
    if |es| == 1 { RefNamesNext([], es[0]); assert [] + [es[0]] == es; }
  }

  /** after: every expression simplified against the simplified ones before it. */
  ghost predicate SimplifiedEnv(before: Env, after: Env, order: seq<string>, n: nat)
    requires n <= |order| && Linkable(before, order)
  {
    && Linkable(after, order)
    && forall k | 0 <= k < n :: LinkedSet(after, order, k) == Simplified(LinkedSet(before, order, k))
  }

  /** Simplifying an expression and then linking it is linking it and then simplifying the linked form. */
  lemma {:induction false} SimplifyThenLink(before: Env, after: Env, order: seq<string>, k: nat, e: Expr,
                                            empties: set<string>)
    requires k <= |order| && Linkable(before, order) && SimplifiedEnv(before, after, order, k)
    requires RefNames(e) <= Elements(order[..k])
    requires forall j | 0 <= j < k :: order[j] in empties <==> after[order[j]] == EmptyExpr
    ensures RefNames(SimplifyExpr(e, empties)) <= Elements(order[..k])
    ensures Linked(after, order, k, SimplifyExpr(e, empties)) == Simplified(Linked(before, order, k, e))
    decreases e, 1
  {
    SimplifyRefs(e, empties);
    match e
    case Name(_) =>
    case EmptyExpr =>
    case SetRef(n) =>
      assert n in RefNames(e);
      var j := IndexOf(order[..k], n);
      assert order[j] == n;
      assert LinkedSet(after, order, j) == Simplified(LinkedSet(before, order, j));
    case AndExpr(es) =>
      SimplifyThenLinkAll(before, after, order, k, es, empties);
      LinkedOne(after, order, k, SimplifyExprs(es, empties));
    case OrExpr(es) =>
      SimplifyThenLinkAll(before, after, order, k, es, empties);
      LinkedOne(after, order, k, SimplifyExprs(es, empties));
  }

  lemma LinkedOne(env: Env, order: seq<string>, k: nat, es: seq<Expr>)
    requires Linkable(env, order) && k <= |order| && RefNamesIn(es) <= Elements(order[..k])
    ensures |es| == 1 ==> RefNames(es[0]) <= Elements(order[..k])
    ensures |es| == 1 ==> LinkedAll(env, order, k, es)[0] == Linked(env, order, k, es[0])
  {
    OneRef(es);
  }

  lemma {:induction false} SimplifyThenLinkAll(before: Env, after: Env, order: seq<string>, k: nat, es: seq<Expr>,
                                               empties: set<string>)
    requires k <= |order| && Linkable(before, order) && SimplifiedEnv(before, after, order, k)
    requires RefNamesIn(es) <= Elements(order[..k])
    requires forall j | 0 <= j < k :: order[j] in empties <==> after[order[j]] == EmptyExpr
    ensures RefNamesIn(SimplifyExprs(es, empties)) <= Elements(order[..k])
    ensures LinkedAll(after, order, k, SimplifyExprs(es, empties)) == Remaining(LinkedAll(before, order, k, es))
    decreases es, 0
  {
    SimplifyRefsIn(es, empties);
    if es != [] {
      var n := |es| - 1;
      var c, done := SimplifyExpr(es[n], empties), SimplifyExprs(es[..n], empties);
      SimplifyThenLink(before, after, order, k, es[n], empties);
      SimplifyThenLinkAll(before, after, order, k, es[..n], empties);
      var ns := LinkedAll(before, order, k, es);
      assert ns[..n] == LinkedAll(before, order, k, es[..n]);
      var last := Simplified(ns[n]);
      assert Remaining(ns) == Remaining(ns[..n]) + if last == MatrixNodes.Empty then [] else [last];
      if c == EmptyExpr {
        assert SimplifyExprs(es, empties) == done;
      } else {
        assert (done + [c])[..|done|] == done;
        LinkedNotEmpty(after, order, k, c);
      }
    }
  }

  lemma LinkedNotEmpty(env: Env, order: seq<string>, k: nat, e: Expr)
    requires Linkable(env, order) && k <= |order| && RefNames(e) <= Elements(order[..k])
    ensures Linked(env, order, k, e) == MatrixNodes.Empty <==> e == EmptyExpr
  {
  }

  /** A linked form depends only on the expressions of earlier names. */
  lemma {:induction false} LinkedAgree(a: Env, b: Env, order: seq<string>, k: nat, e: Expr)
    requires Linkable(a, order) && Linkable(b, order)
    requires k <= |order| && RefNames(e) <= Elements(order[..k])
    requires forall j | 0 <= j < k :: a[order[j]] == b[order[j]]
    ensures Linked(a, order, k, e) == Linked(b, order, k, e)
    decreases k, e, 1
  {
    match e
    case Name(_) =>
    case EmptyExpr =>
    case SetRef(n) =>
      assert n in RefNames(e);
      var j := IndexOf(order[..k], n);
      LinkedAgree(a, b, order, j, a[order[j]]);
    case AndExpr(es) => LinkedAgreeAll(a, b, order, k, es);
    case OrExpr(es) => LinkedAgreeAll(a, b, order, k, es);
  }

  lemma {:induction false} LinkedAgreeAll(a: Env, b: Env, order: seq<string>, k: nat, es: seq<Expr>)
    requires Linkable(a, order) && Linkable(b, order)
    requires k <= |order| && RefNamesIn(es) <= Elements(order[..k])
    requires forall j | 0 <= j < k :: a[order[j]] == b[order[j]]
    ensures LinkedAll(a, order, k, es) == LinkedAll(b, order, k, es)
    decreases k, es, 0
  {
    if es != [] {
      LinkedAgreeAll(a, b, order, k, es[..|es| - 1]);
      LinkedAgree(a, b, order, k, es[|es| - 1]);
    }
  }

  /** Simplifying the next name of the order extends the simplified part by one. */
  lemma SimplifiedEnvNext(before: Env, after: Env, order: seq<string>, i: nat, empties: set<string>, next: Env)
    requires Linkable(before, order) && i < |order| && SimplifiedEnv(before, after, order, i)
    requires forall k | i <= k < |order| :: after[order[k]] == before[order[k]]
    requires empties == set n | n in after && after[n] == EmptyExpr
    requires next == after[order[i] := SimplifyExpr(before[order[i]], empties)]
    ensures SimplifiedEnv(before, next, order, i + 1)
  {
    var e := before[order[i]];
    SimplifyThenLink(before, after, order, i, e, empties);
    assert Linkable(next, order);
    forall k | 0 <= k < i + 1
      ensures LinkedSet(next, order, k) == Simplified(LinkedSet(before, order, k))
    {
      if k < i {
        LinkedAgree(after, next, order, k, after[order[k]]);
        assert LinkedSet(after, order, k) == Simplified(LinkedSet(before, order, k));
      } else {
        LinkedAgree(after, next, order, i, next[order[i]]);
      }
    }
  }

  /** Without empty terms there is nothing to simplify. */
  lemma {:induction false} PlainLinked(env: Env, order: seq<string>, k: nat, e: Expr)
    requires Linkable(env, order) && (forall n | n in order :: Printable(env[n]))
    requires k <= |order| && RefNames(e) <= Elements(order[..k]) && Printable(e)
    ensures var n := Linked(env, order, k, e);
            n != MatrixNodes.Empty && MatrixNodes.Compact(n) && Branching(n)
    decreases k, e, 1
  {
    match e
    case Name(_) =>
    case SetRef(n) =>
      assert n in RefNames(e);
      var j := IndexOf(order[..k], n);
      PlainLinked(env, order, j, env[order[j]]);
    case AndExpr(es) => PlainLinkedAll(env, order, k, es);
    case OrExpr(es) => PlainLinkedAll(env, order, k, es);
  }

  lemma {:induction false} PlainLinkedAll(env: Env, order: seq<string>, k: nat, es: seq<Expr>)
    requires Linkable(env, order) && (forall n | n in order :: Printable(env[n]))
    requires k <= |order| && RefNamesIn(es) <= Elements(order[..k])
    requires forall i | 0 <= i < |es| :: Printable(es[i])
    ensures forall i | 0 <= i < |es| ::
              var n := LinkedAll(env, order, k, es)[i];
              n != MatrixNodes.Empty && MatrixNodes.Compact(n) && Branching(n)
    decreases k, es, 0
  {
    if es != [] {
      PlainLinkedAll(env, order, k, es[..|es| - 1]);
      PlainLinked(env, order, k, es[|es| - 1]);
    }
  }

  lemma PlainIsSimplified(env: Env, order: seq<string>)
    requires Linkable(env, order) && forall n | n in order :: Printable(env[n])
    ensures SimplifiedEnv(env, env, order, |order|)
  {
    forall k | 0 <= k < |order|
      ensures LinkedSet(env, order, k) == Simplified(LinkedSet(env, order, k))
    {
      PlainLinked(env, order, k, env[order[k]]);
      CompactStays(LinkedSet(env, order, k));
      SimplifiedKeeps(LinkedSet(env, order, k));
    }
  }
}
