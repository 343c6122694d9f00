/** The order in which expressions yield their states. */
module MatrixTraversal {
  import opened MatrixNodes

  /** What one choice keeps of the relevant models, and all the models it names. */
  datatype Kept = Kept(seen: set<string>, models: set<string>)

  ghost function KeptOf(relevant: set<string>, s: set<string>): Kept {
    Kept(s * relevant, s - {""})
  }

  ghost function Unite(a: Kept, b: Kept): Kept {
    Kept(a.seen + b.seen, a.models + b.models)
  }

  /** Some choice keeps all of s. */
  ghost predicate Under(ks: seq<Kept>, s: set<string>) {
    exists i :: 0 <= i < |ks| && s <= ks[i].seen
  }

  /** The choices that keep something beyond s, in order. */
  ghost function Beyond(ks: seq<Kept>, s: set<string>): seq<Kept> {
    if ks == [] then []
    else
      var n := |ks| - 1;
      Beyond(ks[..n], s) + if ks[n].seen <= s then [] else [ks[n]]
  }

  /** A choice joins the list unless another one keeps as much; then those go that keep no more than it does. */
  ghost function Insert(ks: seq<Kept>, c: Kept): seq<Kept> {
    if Under(ks, c.seen) then ks else Beyond(ks, c.seen) + [c]
  }

  ghost function InsertAll(ks: seq<Kept>, more: seq<Kept>): seq<Kept> {
    if more == [] then ks
    else
      var n := |more| - 1;
      Insert(InsertAll(ks, more[..n]), more[n])
  }

  /** One choice with each of the others, in order. */
  ghost function Row(a: Kept, bs: seq<Kept>): seq<Kept> {
    if bs == [] then []
    else
      var n := |bs| - 1;
      Row(a, bs[..n]) + [Unite(a, bs[n])]
  }

  lemma {:induction false} RowLength(a: Kept, bs: seq<Kept>)
    ensures |Row(a, bs)| == |bs|
  {
    if bs != [] { RowLength(a, bs[..|bs| - 1]); }
  }

  /** The pairs of two lists, the first list outermost, pruned as they are formed. */
  ghost function Product(left: seq<Kept>, right: seq<Kept>): seq<Kept> {
    if left == [] then []
    else
      var n := |left| - 1;
      InsertAll(Product(left[..n], right), Row(left[n], right))
  }

  /** The states of an expression in the order the traversal leaves them, on the relevant models. */
  ghost function Traversal(relevant: set<string>, n: Node): seq<Kept>
    decreases n, 0
  {
    match n
    case Leaf(m) => [KeptOf(relevant, {m})]
    case Ref(_, r) => Traversal(relevant, r)
    case And(cs) => TraverseAnd(relevant, cs)
    case Or(cs) => TraverseOr(relevant, cs)
    case Empty => []
  }

  ghost function TraverseAnd(relevant: set<string>, cs: seq<Node>): seq<Kept>
    decreases cs, 0
  {
    if cs == [] then [Kept({}, {})]
    else
      var n := |cs| - 1;
      Product(TraverseAnd(relevant, cs[..n]), Traversal(relevant, cs[n]))
  }

  ghost function TraverseOr(relevant: set<string>, cs: seq<Node>): seq<Kept>
    decreases cs, 0
  {
    if cs == [] then []
    else
      var n := |cs| - 1;
      InsertAll(TraverseOr(relevant, cs[..n]), Traversal(relevant, cs[n]))
  }

  // ----- what the traversal keeps of the full expansion

  ghost predicate KeepsOne(relevant: set<string>, family: set<set<string>>, k: Kept) {
    exists s :: s in family && k == KeptOf(relevant, s)
  }

  /** Every choice is one of the family. */
  ghost predicate AllKeep(relevant: set<string>, family: set<set<string>>, ks: seq<Kept>) {
    forall i | 0 <= i < |ks| :: KeepsOne(relevant, family, ks[i])
  }

  ghost predicate Incomparable(ks: seq<Kept>) {
    forall i, j | 0 <= i < |ks| && 0 <= j < |ks| && i != j :: !(ks[i].seen <= ks[j].seen)
  }

  /** Every set lies below some choice. */
  ghost predicate AllUnder(ks: seq<Kept>, targets: set<set<string>>) {
    forall t | t in targets :: Under(ks, t)
  }

  ghost function Projections(relevant: set<string>, family: set<set<string>>): set<set<string>> {
    set s | s in family :: s * relevant
  }

  ghost function Seens(ks: seq<Kept>): set<set<string>> {
    set i | 0 <= i < |ks| :: ks[i].seen
  }

  /** Incomparable choices of the family, one of them above each member's projection. */
  ghost predicate Represents(relevant: set<string>, family: set<set<string>>, ks: seq<Kept>) {
    && AllKeep(relevant, family, ks) && Incomparable(ks) && AllUnder(ks, Projections(relevant, family))
  }

  lemma {:induction false} BeyondElements(ks: seq<Kept>, s: set<string>)
    ensures |Beyond(ks, s)| <= |ks|
    ensures forall k :: k in Beyond(ks, s) <==> k in ks && !(k.seen <= s)
  {
    if ks != [] {
      var n := |ks| - 1;
      BeyondElements(ks[..n], s);
      assert ks == ks[..n] + [ks[n]];
    }
  }

  lemma IncomparableNext(ks: seq<Kept>, x: Kept)
    requires Incomparable(ks) && forall k | k in ks :: !(k.seen <= x.seen) && !(x.seen <= k.seen)
    ensures Incomparable(ks + [x])
  {
    var r := ks + [x];
    forall i, j | 0 <= i < |r| && 0 <= j < |r| && i != j ensures !(r[i].seen <= r[j].seen) {
      if i < |ks| { assert r[i] in ks; }
      if j < |ks| { assert r[j] in ks; }
    }
  }

  lemma {:induction false} BeyondIncomparable(ks: seq<Kept>, s: set<string>)
    requires Incomparable(ks)
    ensures Incomparable(Beyond(ks, s))
  {
    if ks != [] {
      var n := |ks| - 1;
      BeyondIncomparable(ks[..n], s);
      BeyondElements(ks[..n], s);
      forall k | k in Beyond(ks[..n], s) ensures !(k.seen <= ks[n].seen) && !(ks[n].seen <= k.seen) {
        assert k in ks[..n];
        var i :| 0 <= i < n && ks[i] == k;
      }
      IncomparableNext(Beyond(ks[..n], s), ks[n]);
      assert Beyond(ks[..n], s) + [] == Beyond(ks[..n], s);
    }
  }

  /** Inserting keeps the choices pairwise incomparable. */
  lemma InsertIncomparable(ks: seq<Kept>, c: Kept)
    requires Incomparable(ks)
    ensures Incomparable(Insert(ks, c))
  {
    if !Under(ks, c.seen) {
      BeyondElements(ks, c.seen);
      BeyondIncomparable(ks, c.seen);
      forall k | k in Beyond(ks, c.seen) ensures !(c.seen <= k.seen) {
        assert k in ks;
      }
      IncomparableNext(Beyond(ks, c.seen), c);
    }
  }

  /** Inserting uncovers nothing, and covers what the new choice keeps. */
  lemma InsertCovers(ks: seq<Kept>, c: Kept, s: set<string>)
    requires Under(ks, s) || s <= c.seen
    ensures Under(Insert(ks, c), s)
  {
    if Under(ks, c.seen) {
      var i :| 0 <= i < |ks| && c.seen <= ks[i].seen;
    } else {
      var r, rest := Insert(ks, c), Beyond(ks, c.seen);
      assert r[|rest|] == c;
      if !(s <= c.seen) {
        var i :| 0 <= i < |ks| && s <= ks[i].seen;
        BeyondElements(ks, c.seen);
        assert ks[i] in ks && ks[i] in rest;
        var j :| 0 <= j < |rest| && rest[j] == ks[i];
        assert r[j] == ks[i];
      }
    }
  }

  lemma InsertElements(ks: seq<Kept>, c: Kept)
    ensures forall k | k in Insert(ks, c) :: k in ks || k == c
  {
    BeyondElements(ks, c.seen);
  }

  /** Choices of a family gathered so far, incomparable and above the targets. */
  ghost predicate Gathers(relevant: set<string>, family: set<set<string>>, targets: set<set<string>>, ks: seq<Kept>) {
    AllKeep(relevant, family, ks) && Incomparable(ks) && AllUnder(ks, targets)
  }

  lemma InsertGathers(relevant: set<string>, family: set<set<string>>, targets: set<set<string>>, ks: seq<Kept>,
                      c: Kept)
    requires Gathers(relevant, family, targets, ks) && KeepsOne(relevant, family, c)
    ensures Gathers(relevant, family, targets + {c.seen}, Insert(ks, c))
  {
    var r := Insert(ks, c);
    InsertElements(ks, c);
    InsertIncomparable(ks, c);
    forall i | 0 <= i < |r| ensures KeepsOne(relevant, family, r[i]) {
      assert r[i] in r;
    }
    forall t | t in targets + {c.seen} ensures Under(r, t) {
      InsertCovers(ks, c, t);
    }
  }

  lemma {:induction false} InsertAllGathers(relevant: set<string>, family: set<set<string>>, targets: set<set<string>>,
                                            ks: seq<Kept>, more: seq<Kept>)
    requires Gathers(relevant, family, targets, ks) && AllKeep(relevant, family, more)
    ensures Gathers(relevant, family, targets + Seens(more), InsertAll(ks, more))
  {
    if more == [] {
      assert targets + Seens(more) == targets;
    } else {
      var n := |more| - 1;
      InsertAllGathers(relevant, family, targets, ks, more[..n]);
      InsertGathers(relevant, family, targets + Seens(more[..n]), InsertAll(ks, more[..n]), more[n]);
      SeensNext(more);
      assert targets + Seens(more) == targets + Seens(more[..n]) + {more[n].seen};
    }
  }

  lemma SeensNext(ks: seq<Kept>)
    requires ks != []
    ensures Seens(ks) == Seens(ks[..|ks| - 1]) + {ks[|ks| - 1].seen}
  {
    var n := |ks| - 1;
    forall t | t in Seens(ks) ensures t in Seens(ks[..n]) + {ks[n].seen} {
      var i :| 0 <= i < |ks| && t == ks[i].seen;
      if i < n { assert t == ks[..n][i].seen; }
    }
    forall t | t in Seens(ks[..n]) ensures t in Seens(ks) {
      var i :| 0 <= i < n && t == ks[..n][i].seen;
      assert t == ks[i].seen;
    }
  }

  /** What a list of choices lies below is below any list above those choices. */
  lemma UnderThrough(ks: seq<Kept>, more: seq<Kept>, t: set<string>)
    requires Under(more, t) && AllUnder(ks, Seens(more))
    ensures Under(ks, t)
  {
    var i :| 0 <= i < |more| && t <= more[i].seen;
    assert more[i].seen in Seens(more);
    var j :| 0 <= j < |ks| && more[i].seen <= ks[j].seen;
  }

  lemma OrRepresents(relevant: set<string>, f: set<set<string>>, g: set<set<string>>, ks: seq<Kept>, more: seq<Kept>)
    requires Represents(relevant, f, ks) && Represents(relevant, g, more)
    ensures Represents(relevant, f + g, InsertAll(ks, more))
  {
    WiderFamily(relevant, f, f + g, ks);
    WiderFamily(relevant, g, f + g, more);
    InsertAllGathers(relevant, f + g, Projections(relevant, f), ks, more);
    var r := InsertAll(ks, more);
    forall t | t in Projections(relevant, f + g) ensures Under(r, t) {
      if t !in Projections(relevant, f) {
        assert t in Projections(relevant, g);
        UnderThrough(r, more, t);
      }
    }
  }

  lemma WiderFamily(relevant: set<string>, f: set<set<string>>, g: set<set<string>>, ks: seq<Kept>)
    requires AllKeep(relevant, f, ks) && f <= g
    ensures AllKeep(relevant, g, ks)
  {
  }

  /** Two choices united are the choice of the united sets. */
  lemma UniteKeeps(relevant: set<string>, f: set<set<string>>, g: set<set<string>>, a: Kept, b: Kept)
    requires KeepsOne(relevant, f, a) && KeepsOne(relevant, g, b)
    ensures KeepsOne(relevant, Join(f, g), Unite(a, b))
  {
    var s :| s in f && a == KeptOf(relevant, s);
    var t :| t in g && b == KeptOf(relevant, t);
    assert s + t in Join(f, g) && Unite(a, b) == KeptOf(relevant, s + t);
  }

  lemma {:induction false} RowKeeps(relevant: set<string>, f: set<set<string>>, g: set<set<string>>, a: Kept,
                                    bs: seq<Kept>)
    requires KeepsOne(relevant, f, a) && AllKeep(relevant, g, bs)
    ensures AllKeep(relevant, Join(f, g), Row(a, bs)) && |Row(a, bs)| == |bs|
    ensures forall j | 0 <= j < |bs| :: Row(a, bs)[j] == Unite(a, bs[j])
  {
    if bs != [] {
      var n := |bs| - 1;
      RowKeeps(relevant, f, g, a, bs[..n]);
      UniteKeeps(relevant, f, g, a, bs[n]);
    }
  }

  /** What the first choices keep together with any member of a family. */
  ghost function PairSeens(left: seq<Kept>, right: seq<Kept>): set<set<string>> {
    set i, j | 0 <= i < |left| && 0 <= j < |right| :: left[i].seen + right[j].seen
  }

  lemma {:induction false} ProductGathers(relevant: set<string>, f: set<set<string>>, g: set<set<string>>,
                                          left: seq<Kept>, right: seq<Kept>)
    requires AllKeep(relevant, f, left) && AllKeep(relevant, g, right)
    ensures Gathers(relevant, Join(f, g), PairSeens(left, right), Product(left, right))
  {
    if left == [] {
      assert PairSeens(left, right) == {};
    } else {
      var n := |left| - 1;
      ProductGathers(relevant, f, g, left[..n], right);
      RowKeeps(relevant, f, g, left[n], right);
      var row := Row(left[n], right);
      InsertAllGathers(relevant, Join(f, g), PairSeens(left[..n], right), Product(left[..n], right), row);
      PairSeensNext(left, right, row);
    }
  }

  lemma PairSeensNext(left: seq<Kept>, right: seq<Kept>, row: seq<Kept>)
    requires left != [] && |row| == |right|
    requires forall j | 0 <= j < |right| :: row[j] == Unite(left[|left| - 1], right[j])
    ensures PairSeens(left, right) <= PairSeens(left[..|left| - 1], right) + Seens(row)
  {
    var n := |left| - 1;
    forall t | t in PairSeens(left, right) ensures t in PairSeens(left[..n], right) + Seens(row) {
      var i, j :| 0 <= i < |left| && 0 <= j < |right| && t == left[i].seen + right[j].seen;
      if i < n {
        assert t == left[..n][i].seen + right[j].seen;
      } else {
        assert t == row[j].seen;
      }
    }
  }

  /** Pruning inside AND loses nothing of the Cartesian product. */
  lemma AndRepresents(relevant: set<string>, f: set<set<string>>, g: set<set<string>>, left: seq<Kept>,
                      right: seq<Kept>)
    requires Represents(relevant, f, left) && Represents(relevant, g, right)
    ensures Represents(relevant, Join(f, g), Product(left, right))
  {
    ProductGathers(relevant, f, g, left, right);
    var r := Product(left, right);
    forall t | t in Projections(relevant, Join(f, g)) ensures Under(r, t) {
      var s :| s in Join(f, g) && t == s * relevant;
      var x, y :| x in f && y in g && s == x + y;
      assert x * relevant in Projections(relevant, f) && y * relevant in Projections(relevant, g);
      var i :| 0 <= i < |left| && x * relevant <= left[i].seen;
      var j :| 0 <= j < |right| && y * relevant <= right[j].seen;
      var u := left[i].seen + right[j].seen;
      assert u in PairSeens(left, right) && t <= u;
      var k :| 0 <= k < |r| && u <= r[k].seen;
    }
  }

  /** The traversal represents the full Cartesian expansion. */
  lemma {:induction false} TraversalRepresents(relevant: set<string>, n: Node)
    ensures Represents(relevant, Expansion(n), Traversal(relevant, n))
    decreases n, 0
  {
    match n
    case Leaf(m) => OneRepresents(relevant, {m});
    case Ref(_, r) => TraversalRepresents(relevant, r);
    case And(cs) => TraverseAndRepresents(relevant, cs);
    case Or(cs) => TraverseOrRepresents(relevant, cs);
    case Empty =>
  }

  lemma OneRepresents(relevant: set<string>, s: set<string>)
    ensures Represents(relevant, {s}, [KeptOf(relevant, s)])
  {
    var ks := [KeptOf(relevant, s)];
    assert s in {s} && KeepsOne(relevant, {s}, ks[0]);
    assert Projections(relevant, {s}) == {s * relevant} && s * relevant <= ks[0].seen;
  }

  lemma {:induction false} TraverseAndRepresents(relevant: set<string>, cs: seq<Node>)
    ensures Represents(relevant, Combinations(cs), TraverseAnd(relevant, cs))
    decreases cs, 0
  {
    if cs == [] {
      OneRepresents(relevant, {});
      assert KeptOf(relevant, {}) == Kept({}, {});
    } else {
      var n := |cs| - 1;
      TraverseAndRepresents(relevant, cs[..n]);
      TraversalRepresents(relevant, cs[n]);
      AndRepresents(relevant, Combinations(cs[..n]), Expansion(cs[n]), TraverseAnd(relevant, cs[..n]),
                    Traversal(relevant, cs[n]));
    }
  }

  lemma {:induction false} TraverseOrRepresents(relevant: set<string>, cs: seq<Node>)
    ensures Represents(relevant, Alternatives(cs), TraverseOr(relevant, cs))
    decreases cs, 0
  {
    if cs != [] {
      var n := |cs| - 1;
      TraverseOrRepresents(relevant, cs[..n]);
      TraversalRepresents(relevant, cs[n]);
      OrRepresents(relevant, Alternatives(cs[..n]), Expansion(cs[n]), TraverseOr(relevant, cs[..n]),
                   Traversal(relevant, cs[n]));
    }
  }
}
