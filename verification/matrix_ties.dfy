/** Which of several equally cheap sets is reported: the full expansion as a list, what pruning leaves of a list and in
    which order, and where the two orders are the same. */
module MatrixTies {
  import opened Collections
  import opened MatrixNodes
  import opened MatrixTraversal
  import opened MatrixSolver

  // ----- the full expansion in order

  /** Every described set, the leftmost choices outermost. */
  ghost function LeftMajor(n: Node): seq<set<string>>
    decreases n, 0
  {
    match n
    case Leaf(m) => [{m}]
    case Ref(_, r) => LeftMajor(r)
    case And(cs) => LeftMajorAnd(cs)
    case Or(cs) => LeftMajorOr(cs)
    case Empty => []
  }

  ghost function LeftMajorAnd(cs: seq<Node>): seq<set<string>>
    decreases cs, 0
  {
    if cs == [] then [{}] else Pairs(LeftMajorAnd(cs[..|cs| - 1]), LeftMajor(cs[|cs| - 1]))
  }

  ghost function LeftMajorOr(cs: seq<Node>): seq<set<string>>
    decreases cs, 0
  {
    if cs == [] then [] else LeftMajorOr(cs[..|cs| - 1]) + LeftMajor(cs[|cs| - 1])
  }

  /** One set united with each of the others. */
  ghost function Each(s: set<string>, ts: seq<set<string>>): seq<set<string>> {
    if ts == [] then [] else Each(s, ts[..|ts| - 1]) + [s + ts[|ts| - 1]]
  }

  ghost function Pairs(ss: seq<set<string>>, ts: seq<set<string>>): seq<set<string>> {
    if ss == [] then [] else Pairs(ss[..|ss| - 1], ts) + Each(ss[|ss| - 1], ts)
  }

  lemma {:induction false} EachElements(s: set<string>, ts: seq<set<string>>)
    ensures Elements(Each(s, ts)) == Join({s}, Elements(ts))
  {
    if ts != [] {
      var n := |ts| - 1;
      EachElements(s, ts[..n]);
      assert ts == ts[..n] + [ts[n]];
      ElementsConcat(ts[..n], [ts[n]]);
      ElementsConcat(Each(s, ts[..n]), [s + ts[n]]);
      assert Elements([ts[n]]) == {ts[n]} && Elements([s + ts[n]]) == {s + ts[n]};
    }
  }

  lemma {:induction false} PairsElements(ss: seq<set<string>>, ts: seq<set<string>>)
    ensures Elements(Pairs(ss, ts)) == Join(Elements(ss), Elements(ts))
  {
    if ss != [] {
      var n := |ss| - 1;
      PairsElements(ss[..n], ts);
      EachElements(ss[n], ts);
      assert ss == ss[..n] + [ss[n]];
      ElementsConcat(ss[..n], [ss[n]]);
      ElementsConcat(Pairs(ss[..n], ts), Each(ss[n], ts));
      assert Elements([ss[n]]) == {ss[n]};
    }
  }

  /** The list holds exactly the described sets. */
  lemma {:induction false} LeftMajorElements(n: Node)
    ensures Elements(LeftMajor(n)) == Expansion(n)
    decreases n, 0
  {
    match n
    case Leaf(_) =>
    case Ref(_, r) => LeftMajorElements(r);
    case And(cs) => LeftMajorAndElements(cs);
    case Or(cs) => LeftMajorOrElements(cs);
    case Empty =>
  }

  lemma {:induction false} LeftMajorAndElements(cs: seq<Node>)
    ensures Elements(LeftMajorAnd(cs)) == Combinations(cs)
    decreases cs, 0
  {
    if cs != [] {
      LeftMajorAndElements(cs[..|cs| - 1]);
      LeftMajorElements(cs[|cs| - 1]);
      PairsElements(LeftMajorAnd(cs[..|cs| - 1]), LeftMajor(cs[|cs| - 1]));
    }
  }

  lemma {:induction false} LeftMajorOrElements(cs: seq<Node>)
    ensures Elements(LeftMajorOr(cs)) == Alternatives(cs)
    decreases cs, 0
  {
    if cs != [] {
      LeftMajorOrElements(cs[..|cs| - 1]);
      LeftMajorElements(cs[|cs| - 1]);
      ElementsConcat(LeftMajorOr(cs[..|cs| - 1]), LeftMajor(cs[|cs| - 1]));
    }
  }

  ghost function KeptAll(relevant: set<string>, ss: seq<set<string>>): seq<Kept> {
    if ss == [] then [] else KeptAll(relevant, ss[..|ss| - 1]) + [KeptOf(relevant, ss[|ss| - 1])]
  }

  lemma {:induction false} KeptAllAt(relevant: set<string>, ss: seq<set<string>>)
    ensures |KeptAll(relevant, ss)| == |ss|
    ensures forall i | 0 <= i < |ss| :: KeptAll(relevant, ss)[i] == KeptOf(relevant, ss[i])
  {
    if ss != [] { KeptAllAt(relevant, ss[..|ss| - 1]); }
  }

  lemma {:induction false} KeptAllConcat(relevant: set<string>, ss: seq<set<string>>, ts: seq<set<string>>)
    ensures KeptAll(relevant, ss + ts) == KeptAll(relevant, ss) + KeptAll(relevant, ts)
  {
    if ts == [] {
      assert ss + ts == ss;
    } else {
      var n := |ts| - 1;
      KeptAllConcat(relevant, ss, ts[..n]);
      assert (ss + ts)[..|ss + ts| - 1] == ss + ts[..n];
    }
  }

  // ----- pruning a list keeps its maxima in order

  /** Inserting one by one, from nothing. */
  ghost function Pruned(ks: seq<Kept>): seq<Kept> {
    InsertAll([], ks)
  }

  /** Nothing in all keeps strictly more. */
  ghost predicate Top(s: set<string>, all: set<set<string>>) {
    forall t | t in all :: !(s < t)
  }

  /** The choices that are maximal in all and keep what no earlier one keeps. */
  ghost function Sift(ks: seq<Kept>, all: set<set<string>>, earlier: set<set<string>>): seq<Kept> {
    if ks == [] then []
    else
      var n := |ks| - 1;
      Sift(ks[..n], all, earlier)
      + if Top(ks[n].seen, all) && ks[n].seen !in earlier + Seens(ks[..n]) then [ks[n]] else []
  }

  lemma SeensConcat(a: seq<Kept>, b: seq<Kept>)
    ensures Seens(a + b) == Seens(a) + Seens(b)
  {
    forall t | t in Seens(a) + Seens(b) ensures t in Seens(a + b) {
      if t in Seens(a) {
        var i :| 0 <= i < |a| && t == a[i].seen;
        assert (a + b)[i] == a[i];
      } else {
        var i :| 0 <= i < |b| && t == b[i].seen;
        assert (a + b)[|a| + i] == b[i];
      }
    }
  }

  lemma {:induction false} SiftConcat(a: seq<Kept>, b: seq<Kept>, all: set<set<string>>, earlier: set<set<string>>)
    ensures Sift(a + b, all, earlier) == Sift(a, all, earlier) + Sift(b, all, earlier + Seens(a))
  {
    if b == [] {
      assert a + b == a;
    } else {
      var n := |b| - 1;
      SiftConcat(a, b[..n], all, earlier);
      assert (a + b)[..|a + b| - 1] == a + b[..n];
      SeensConcat(a, b[..n]);
      assert earlier + Seens(a + b[..n]) == earlier + Seens(a) + Seens(b[..n]);
    }
  }

  /** Only the comparison of the listed choices with the others matters, and with the earlier ones that are maximal. */
  lemma {:induction false} SiftSame(ks: seq<Kept>, all: set<set<string>>, more: set<set<string>>,
                                    earlier: set<set<string>>, sooner: set<set<string>>)
    requires forall t | t in Seens(ks) :: Top(t, all) <==> Top(t, more)
    requires forall t | t in Seens(ks) && Top(t, all) :: t in earlier <==> t in sooner
    ensures Sift(ks, all, earlier) == Sift(ks, more, sooner)
  {
    if ks != [] {
      SeensNext(ks);
      SiftSame(ks[..|ks| - 1], all, more, earlier, sooner);
    }
  }

  /** A new choice beside all the others removes those it lies above. */
  lemma {:induction false} SiftBeyond(ks: seq<Kept>, all: set<set<string>>, earlier: set<set<string>>, c: set<string>)
    requires c !in Seens(ks)
    ensures Sift(ks, all + {c}, earlier) == Beyond(Sift(ks, all, earlier), c)
  {
    if ks != [] {
      var n := |ks| - 1;
      SeensNext(ks);
      SiftBeyond(ks[..n], all, earlier, c);
      var rest, x := Sift(ks[..n], all, earlier), ks[n].seen;
      assert x != c;
      assert Top(x, all + {c}) <==> Top(x, all) && !(x <= c);
      if Top(x, all) && x !in earlier + Seens(ks[..n]) {
        BeyondNext(rest, ks[n], c);
      } else {
        assert Sift(ks, all, earlier) == rest;
      }
    }
  }

  lemma BeyondNext(ks: seq<Kept>, x: Kept, s: set<string>)
    ensures Beyond(ks + [x], s) == Beyond(ks, s) + if x.seen <= s then [] else [x]
  {
    assert (ks + [x])[..|ks|] == ks;
  }

  lemma {:induction false} PrunedCovers(ks: seq<Kept>)
    ensures AllUnder(Pruned(ks), Seens(ks)) && Seens(Pruned(ks)) <= Seens(ks)
  {
    if ks != [] {
      var n := |ks| - 1;
      PrunedCovers(ks[..n]);
      SeensNext(ks);
      var before, c := Pruned(ks[..n]), ks[n];
      forall t | t in Seens(ks) ensures Under(Insert(before, c), t) {
        InsertCovers(before, c, t);
      }
      InsertElements(before, c);
      forall t | t in Seens(Insert(before, c)) ensures t in Seens(ks) {
        var i :| 0 <= i < |Insert(before, c)| && t == Insert(before, c)[i].seen;
        assert Insert(before, c)[i] in Insert(before, c);
        if Insert(before, c)[i] in before {
          var j :| 0 <= j < |before| && before[j] == Insert(before, c)[i];
          assert t in Seens(before);
        }
      }
    }
  }

  /** A last choice that lies below an earlier one is sifted out and changes nothing. */
  lemma LastBelow(ks: seq<Kept>, t: set<string>)
    requires ks != [] && t in Seens(ks[..|ks| - 1]) && ks[|ks| - 1].seen <= t
    ensures Sift(ks, Seens(ks), {}) == Sift(ks[..|ks| - 1], Seens(ks[..|ks| - 1]), {})
  {
    var n := |ks| - 1;
    var c, all := ks[n].seen, Seens(ks[..n]);
    SeensNext(ks);
    SiftSame(ks[..n], all, Seens(ks), {}, {});
    assert c == t || c < t;
    assert !Top(c, Seens(ks)) || c in {} + all;
  }

  ghost predicate NoneAbove(all: set<set<string>>, c: set<string>) {
    forall t | t in all :: !(c <= t)
  }

  /** A last choice that lies below no earlier one stays, without those below it. */
  lemma LastStays(ks: seq<Kept>)
    requires ks != [] && NoneAbove(Seens(ks[..|ks| - 1]), ks[|ks| - 1].seen)
    ensures Sift(ks, Seens(ks), {}) ==
            Beyond(Sift(ks[..|ks| - 1], Seens(ks[..|ks| - 1]), {}), ks[|ks| - 1].seen) + [ks[|ks| - 1]]
  {
    var n := |ks| - 1;
    var c, all := ks[n].seen, Seens(ks[..n]);
    SeensNext(ks);
    SiftBeyond(ks[..n], all, {}, c);
    assert Top(c, all + {c}) && c !in {} + all;
  }

  /** Pruning keeps the maximal choices in order of first occurrence. */
  lemma {:induction false} PrunedIsSift(ks: seq<Kept>)
    ensures Pruned(ks) == Sift(ks, Seens(ks), {})
  {
    if ks != [] {
      var n := |ks| - 1;
      var before := Pruned(ks[..n]);
      PrunedIsSift(ks[..n]);
      PrunedCovers(ks[..n]);
      if Under(before, ks[n].seen) {
        var i :| 0 <= i < |before| && ks[n].seen <= before[i].seen;
        assert before[i].seen in Seens(before);
        LastBelow(ks, before[i].seen);
      } else {
        NothingAbove(before, Seens(ks[..n]), ks[n].seen);
        LastStays(ks);
      }
    }
  }

  lemma NothingAbove(ks: seq<Kept>, all: set<set<string>>, c: set<string>)
    requires AllUnder(ks, all) && !Under(ks, c)
    ensures NoneAbove(all, c)
  {
    forall t | t in all ensures !(c <= t) {
      var i :| 0 <= i < |ks| && t <= ks[i].seen;
    }
  }

  /** Sifting once more drops nothing else. */
  lemma {:induction false} SiftTwice(ks: seq<Kept>, all: set<set<string>>, more: set<set<string>>,
                                     earlier: set<set<string>>)
    requires forall t | t in Seens(ks) && Top(t, more) :: Top(t, all)
    ensures Sift(Sift(ks, all, {}), more, earlier) == Sift(ks, more, earlier)
  {
    if ks != [] {
      var n := |ks| - 1;
      var rest, x := Sift(ks[..n], all, {}), ks[n];
      SeensNext(ks);
      SiftTwice(ks[..n], all, more, earlier);
      SiftSubset(ks[..n], all, {});
      if Top(x.seen, all) && x.seen !in Seens(ks[..n]) {
        assert (rest + [x])[..|rest|] == rest;
      } else {
        assert Sift(ks, all, {}) == rest;
      }
    }
  }

  lemma {:induction false} SiftSubset(ks: seq<Kept>, all: set<set<string>>, earlier: set<set<string>>)
    ensures Seens(Sift(ks, all, earlier)) <= Seens(ks)
    ensures forall t | t in Seens(ks) && Top(t, all) && t !in earlier :: t in Seens(Sift(ks, all, earlier))
  {
    if ks != [] {
      var n := |ks| - 1;
      SiftSubset(ks[..n], all, earlier);
      SeensNext(ks);
      SeensConcat(Sift(ks[..n], all, earlier), [ks[n]]);
      assert Seens([ks[n]]) == {ks[n].seen} by { SeensNext([ks[n]]); }
      assert Sift(ks[..n], all, earlier) + [] == Sift(ks[..n], all, earlier);
    }
  }

  lemma {:induction false} InsertAllConcat(ks: seq<Kept>, a: seq<Kept>, b: seq<Kept>)
    ensures InsertAll(ks, a + b) == InsertAll(InsertAll(ks, a), b)
  {
    if b == [] {
      assert a + b == a;
    } else {
      var n := |b| - 1;
      InsertAllConcat(ks, a, b[..n]);
      assert (a + b)[..|a + b| - 1] == a + b[..n];
    }
  }

  lemma PrunedTwice(ks: seq<Kept>)
    ensures Pruned(Pruned(ks)) == Pruned(ks)
  {
    var once := Pruned(ks);
    PrunedIsSift(ks);
    PrunedIsSift(once);
    PrunedCovers(ks);
    SameTops(once, Seens(ks));
    SiftSame(once, Seens(once), Seens(ks), {}, {});
    SiftTwice(ks, Seens(ks), Seens(ks), {});
  }

  /** A part that covers the whole has the same maxima. */
  lemma SameTops(ks: seq<Kept>, all: set<set<string>>)
    requires Seens(ks) <= all && AllUnder(ks, all)
    ensures forall t :: Top(t, Seens(ks)) <==> Top(t, all)
  {
    forall t | Top(t, Seens(ks)) ensures Top(t, all) {
      forall u | u in all ensures !(t < u) {
        var i :| 0 <= i < |ks| && u <= ks[i].seen;
        assert ks[i].seen in Seens(ks);
      }
    }
  }

  /** Pruning a list is pruning its front and inserting what pruning leaves of the rest. */
  lemma PrunedConcat(a: seq<Kept>, b: seq<Kept>)
    ensures InsertAll(Pruned(a), Pruned(b)) == Pruned(a + b)
  {
    var x, y, all := Pruned(a), Pruned(b), Seens(a + b);
    PrunedTwice(a);
    InsertAllConcat([], x, y);
    PrunedIsSift(a);
    PrunedIsSift(b);
    PrunedIsSift(x + y);
    PrunedIsSift(a + b);
    SeensConcat(a, b);
    SeensConcat(x, y);
    PrunedCovers(a);
    PrunedCovers(b);
    BothCover(x, y, Seens(a), Seens(b));
    SameTops(x + y, all);
    SiftSame(x + y, Seens(x + y), all, {}, {});
    SiftConcat(x, y, all, {});
    SiftConcat(a, b, all, {});
    SiftTwice(a, Seens(a), all, {});
    SiftTwice(b, Seens(b), all, Seens(x));
    SiftSubset(a, Seens(a), {});
    SiftSame(b, all, all, Seens(x), Seens(a));
    assert {} + Seens(x) == Seens(x) && {} + Seens(a) == Seens(a);
  }

  lemma BothCover(x: seq<Kept>, y: seq<Kept>, a: set<set<string>>, b: set<set<string>>)
    requires AllUnder(x, a) && AllUnder(y, b)
    ensures AllUnder(x + y, a + b)
  {
    forall t | t in a + b ensures Under(x + y, t) {
      if t in a {
        var i :| 0 <= i < |x| && t <= x[i].seen;
        assert (x + y)[i] == x[i];
      } else {
        var i :| 0 <= i < |y| && t <= y[i].seen;
        assert (x + y)[|x| + i] == y[i];
      }
    }
  }

  // ----- products of choices that share no relevant model

  /** The pairs of two lists, the first list outermost, unpruned. */
  ghost function Rows(left: seq<Kept>, right: seq<Kept>): seq<Kept> {
    if left == [] then [] else Rows(left[..|left| - 1], right) + Row(left[|left| - 1], right)
  }

  lemma {:induction false} ProductIsPruned(left: seq<Kept>, right: seq<Kept>)
    ensures Product(left, right) == Pruned(Rows(left, right))
  {
    if left != [] {
      var n := |left| - 1;
      ProductIsPruned(left[..n], right);
      InsertAllConcat([], Rows(left[..n], right), Row(left[n], right));
    }
  }

  ghost function Sums(a: set<set<string>>, b: set<set<string>>): set<set<string>> {
    set s, t | s in a && t in b :: s + t
  }

  lemma {:induction false} RowSeens(x: Kept, right: seq<Kept>)
    ensures Seens(Row(x, right)) == Sums({x.seen}, Seens(right))
  {
    if right != [] {
      var n := |right| - 1;
      RowSeens(x, right[..n]);
      SeensNext(right);
      SeensNext(Row(x, right));
      assert Row(x, right)[..|Row(x, right)| - 1] == Row(x, right[..n]);
      assert Sums({x.seen}, Seens(right)) == Sums({x.seen}, Seens(right[..n])) + {x.seen + right[n].seen};
    }
  }

  lemma {:induction false} RowsSeens(left: seq<Kept>, right: seq<Kept>)
    ensures Seens(Rows(left, right)) == Sums(Seens(left), Seens(right))
  {
    if left != [] {
      var n := |left| - 1;
      RowsSeens(left[..n], right);
      RowSeens(left[n], right);
      SeensNext(left);
      SeensConcat(Rows(left[..n], right), Row(left[n], right));
      var b := Seens(right);
      assert Sums(Seens(left), b) == Sums(Seens(left[..n]), b) + Sums({left[n].seen}, b);
    }
  }

  /** All sets of a lie in xs, all sets of b in ys, and xs and ys have nothing in common. */
  ghost predicate Apart(a: set<set<string>>, b: set<set<string>>, xs: set<string>, ys: set<string>) {
    xs !! ys && (forall s | s in a :: s <= xs) && (forall t | t in b :: t <= ys)
  }

  lemma SumsAgree(s: set<string>, t: set<string>, u: set<string>, v: set<string>, xs: set<string>, ys: set<string>)
    requires xs !! ys && s <= xs && u <= xs && t <= ys && v <= ys
    ensures s + t <= u + v <==> s <= u && t <= v
    ensures s + t == u + v <==> s == u && t == v
  {
    assert (s + t) * xs == s && (u + v) * xs == u && (s + t) * ys == t && (u + v) * ys == v;
  }

  /** Apart, a union is maximal exactly if both its parts are. */
  lemma TopOfSum(s: set<string>, t: set<string>, a: set<set<string>>, b: set<set<string>>, xs: set<string>,
                 ys: set<string>)
    requires Apart(a, b, xs, ys) && s in a && t in b
    ensures Top(s + t, Sums(a, b)) <==> Top(s, a) && Top(t, b)
  {
    if Top(s + t, Sums(a, b)) {
      forall u | u in a ensures !(s < u) {
        assert u + t in Sums(a, b);
        SumsAgree(s, t, u, t, xs, ys);
      }
      forall v | v in b ensures !(t < v) {
        assert s + v in Sums(a, b);
        SumsAgree(s, t, s, v, xs, ys);
      }
    }
    if Top(s, a) && Top(t, b) {
      forall w | w in Sums(a, b) ensures !(s + t < w) {
        var u, v :| u in a && v in b && w == u + v;
        SumsAgree(s, t, u, v, xs, ys);
      }
    }
  }

  /** Apart, a union is among others exactly if its parts are. */
  lemma SumIsAmong(s: set<string>, t: set<string>, a: set<set<string>>, b: set<set<string>>, xs: set<string>,
                   ys: set<string>)
    requires Apart(a, b, xs, ys) && s <= xs && t <= ys
    ensures s + t in Sums(a, b) <==> s in a && t in b
  {
    if s + t in Sums(a, b) {
      var u, v :| u in a && v in b && s + t == u + v;
      SumsAgree(s, t, u, v, xs, ys);
    }
  }

  /** Sifting one row of a product sifts the second list, or drops the row. */
  lemma {:induction false} SiftRow(x: Kept, right: seq<Kept>, a: set<set<string>>, sooner: set<set<string>>,
                                   b: set<set<string>>, xs: set<string>, ys: set<string>)
    requires Apart(a, b, xs, ys) && x.seen in a && sooner <= a && Seens(right) <= b
    ensures Sift(Row(x, right), Sums(a, b), Sums(sooner, b)) ==
            if Top(x.seen, a) && x.seen !in sooner then Row(x, Sift(right, b, {})) else []
  {
    if right != [] {
      var n := |right| - 1;
      var y := right[n];
      SeensNext(right);
      SiftRow(x, right[..n], a, sooner, b, xs, ys);
      assert y.seen in Seens(right);
      KeptInRow(x, y, right[..n], a, sooner, b, xs, ys);
      var row, rest := Row(x, right[..n]), Sift(right[..n], b, {});
      assert Row(x, right)[..|row|] == row;
      assert {} + Seens(right[..n]) == Seens(right[..n]);
      if Top(y.seen, b) && y.seen !in Seens(right[..n]) {
        assert (rest + [y])[..|rest|] == rest;
      } else {
        assert Sift(right, b, {}) == rest;
      }
    }
  }

  /** When one pair of a row is kept. */
  lemma KeptInRow(x: Kept, y: Kept, front: seq<Kept>, a: set<set<string>>, sooner: set<set<string>>,
                  b: set<set<string>>, xs: set<string>, ys: set<string>)
    requires Apart(a, b, xs, ys) && x.seen in a && sooner <= a && Seens(front) <= b && y.seen in b
    ensures Top(x.seen + y.seen, Sums(a, b)) && x.seen + y.seen !in Sums(sooner, b) + Seens(Row(x, front))
            <==> Top(x.seen, a) && x.seen !in sooner && Top(y.seen, b) && y.seen !in Seens(front)
  {
    TopOfSum(x.seen, y.seen, a, b, xs, ys);
    SumIsAmong(x.seen, y.seen, sooner, b, xs, ys);
    SumIsAmong(x.seen, y.seen, {x.seen}, Seens(front), xs, ys);
    RowSeens(x, front);
  }

  /** Apart, sifting a product is the product of the sifted lists. */
  lemma {:induction false} SiftRows(left: seq<Kept>, right: seq<Kept>, a: set<set<string>>, xs: set<string>,
                                    ys: set<string>)
    requires Apart(a, Seens(right), xs, ys) && Seens(left) <= a
    ensures Sift(Rows(left, right), Sums(a, Seens(right)), {}) == Rows(Sift(left, a, {}), Sift(right, Seens(right), {}))
  {
    if left != [] {
      var n := |left| - 1;
      var x, b := left[n], Seens(right);
      SeensNext(left);
      SiftRows(left[..n], right, a, xs, ys);
      RowsSeens(left[..n], right);
      SiftConcat(Rows(left[..n], right), Row(x, right), Sums(a, b), {});
      assert {} + Sums(Seens(left[..n]), b) == Sums(Seens(left[..n]), b);
      SiftRow(x, right, a, Seens(left[..n]), b, xs, ys);
      var rest := Sift(left[..n], a, {});
      assert {} + Seens(left[..n]) == Seens(left[..n]);
      if Top(x.seen, a) && x.seen !in Seens(left[..n]) {
        assert (rest + [x])[..|rest|] == rest;
      } else {
        assert Sift(left, a, {}) == rest;
      }
    }
  }

  lemma PrunedRows(left: seq<Kept>, right: seq<Kept>, xs: set<string>, ys: set<string>)
    requires Apart(Seens(left), Seens(right), xs, ys)
    ensures Pruned(Rows(left, right)) == Rows(Pruned(left), Pruned(right))
  {
    PrunedIsSift(Rows(left, right));
    RowsSeens(left, right);
    SiftRows(left, right, Seens(left), xs, ys);
    PrunedIsSift(left);
    PrunedIsSift(right);
  }

  /** Where two lists share no relevant model, pruning them first does not change the order of their product. */
  lemma ProductOfPruned(left: seq<Kept>, right: seq<Kept>, xs: set<string>, ys: set<string>)
    requires Apart(Seens(left), Seens(right), xs, ys)
    ensures Product(Pruned(left), Pruned(right)) == Pruned(Rows(left, right))
  {
    ProductIsPruned(Pruned(left), Pruned(right));
    PrunedCovers(left);
    PrunedCovers(right);
    PrunedRows(Pruned(left), Pruned(right), xs, ys);
    PrunedTwice(left);
    PrunedTwice(right);
    PrunedRows(left, right, xs, ys);
  }

  // ----- when the traversal keeps the order of the expansion

  /** No operand of an AND mentions a relevant model that another operand of it mentions. */
  ghost predicate OperandsApart(relevant: set<string>, n: Node)
    decreases n, 0
  {
    match n
    case Ref(_, r) => OperandsApart(relevant, r)
    case And(cs) => OperandsApartIn(relevant, cs) && NoneShared(relevant, cs)
    case Or(cs) => OperandsApartIn(relevant, cs)
    case _ => true
  }

  ghost predicate OperandsApartIn(relevant: set<string>, cs: seq<Node>)
    decreases cs, 0
  {
    forall i | 0 <= i < |cs| :: OperandsApart(relevant, cs[i])
  }

  ghost predicate NoneShared(relevant: set<string>, cs: seq<Node>) {
    forall i, j | 0 <= i < j < |cs| :: Mentioned(cs[i]) * Mentioned(cs[j]) * relevant == {}
  }

  lemma {:induction false} NoneSharedWithLast(relevant: set<string>, cs: seq<Node>, last: Node)
    requires forall i | 0 <= i < |cs| :: Mentioned(cs[i]) * Mentioned(last) * relevant == {}
    ensures MentionedIn(cs) * Mentioned(last) * relevant == {}
  {
    if cs != [] { NoneSharedWithLast(relevant, cs[..|cs| - 1], last); }
  }

  lemma {:induction false} KeptAllRow(relevant: set<string>, s: set<string>, ts: seq<set<string>>)
    ensures KeptAll(relevant, Each(s, ts)) == Row(KeptOf(relevant, s), KeptAll(relevant, ts))
  {
    if ts != [] {
      var n := |ts| - 1;
      KeptAllRow(relevant, s, ts[..n]);
      KeptAllConcat(relevant, Each(s, ts[..n]), [s + ts[n]]);
      assert KeptAll(relevant, [s + ts[n]]) == [KeptOf(relevant, s + ts[n])];
      assert KeptOf(relevant, s + ts[n]) == Unite(KeptOf(relevant, s), KeptOf(relevant, ts[n]));
    }
  }

  lemma {:induction false} KeptAllRows(relevant: set<string>, ss: seq<set<string>>, ts: seq<set<string>>)
    ensures KeptAll(relevant, Pairs(ss, ts)) == Rows(KeptAll(relevant, ss), KeptAll(relevant, ts))
  {
    if ss != [] {
      var n := |ss| - 1;
      KeptAllRows(relevant, ss[..n], ts);
      KeptAllRow(relevant, ss[n], ts);
      KeptAllConcat(relevant, Pairs(ss[..n], ts), Each(ss[n], ts));
    }
  }

  /** What a list of sets keeps lies within the relevant models those sets have. */
  lemma {:induction false} KeptWithin(relevant: set<string>, ss: seq<set<string>>, mentioned: set<string>)
    requires forall i | 0 <= i < |ss| :: ss[i] <= mentioned
    ensures forall t | t in Seens(KeptAll(relevant, ss)) :: t <= mentioned * relevant
  {
    if ss != [] {
      var n := |ss| - 1;
      KeptWithin(relevant, ss[..n], mentioned);
      SeensNext(KeptAll(relevant, ss));
      assert ss[n] <= mentioned;
    }
  }

  /** Where no AND has operands that share a relevant model, the traversal is the expansion in order, pruned once. */
  lemma {:induction false} TraversalIsPruned(relevant: set<string>, n: Node)
    requires OperandsApart(relevant, n)
    ensures Traversal(relevant, n) == Pruned(KeptAll(relevant, LeftMajor(n)))
    decreases n, 0
  {
    match n
    case Leaf(m) => PrunedOne(relevant, {m});
    case Ref(_, r) => TraversalIsPruned(relevant, r);
    case And(cs) => TraverseAndIsPruned(relevant, cs);
    case Or(cs) => TraverseOrIsPruned(relevant, cs);
    case Empty =>
  }

  lemma PrunedOne(relevant: set<string>, s: set<string>)
    ensures Pruned(KeptAll(relevant, [s])) == [KeptOf(relevant, s)]
  {
    var k := KeptOf(relevant, s);
    assert [s][..0] == [] && KeptAll(relevant, [s]) == [k];
    assert [k][..0] == [] && InsertAll([], [k]) == Insert([], k);
  }

  lemma {:induction false} TraverseAndIsPruned(relevant: set<string>, cs: seq<Node>)
    requires OperandsApartIn(relevant, cs) && NoneShared(relevant, cs)
    ensures TraverseAnd(relevant, cs) == Pruned(KeptAll(relevant, LeftMajorAnd(cs)))
    decreases cs, 0
  {
    if cs == [] {
      PrunedOne(relevant, {});
      assert KeptOf(relevant, {}) == Kept({}, {});
    } else {
      var n := |cs| - 1;
      TraverseAndIsPruned(relevant, cs[..n]);
      TraversalIsPruned(relevant, cs[n]);
      KeptAllRows(relevant, LeftMajorAnd(cs[..n]), LeftMajor(cs[n]));
      OperandsAreApart(relevant, cs);
      ProductOfPruned(KeptAll(relevant, LeftMajorAnd(cs[..n])), KeptAll(relevant, LeftMajor(cs[n])),
                      MentionedIn(cs[..n]) * relevant, Mentioned(cs[n]) * relevant);
    }
  }

  lemma OperandsAreApart(relevant: set<string>, cs: seq<Node>)
    requires cs != [] && NoneShared(relevant, cs)
    ensures var n := |cs| - 1;
            Apart(Seens(KeptAll(relevant, LeftMajorAnd(cs[..n]))), Seens(KeptAll(relevant, LeftMajor(cs[n]))),
                  MentionedIn(cs[..n]) * relevant, Mentioned(cs[n]) * relevant)
  {
    var n := |cs| - 1;
    var ss, ts := LeftMajorAnd(cs[..n]), LeftMajor(cs[n]);
    NoneSharedWithLast(relevant, cs[..n], cs[n]);
    LeftMajorAndElements(cs[..n]);
    LeftMajorElements(cs[n]);
    forall i | 0 <= i < |ss| ensures ss[i] <= MentionedIn(cs[..n]) {
      assert ss[i] in Elements(ss);
      CombinationsMentioned(cs[..n], ss[i]);
    }
    forall i | 0 <= i < |ts| ensures ts[i] <= Mentioned(cs[n]) {
      assert ts[i] in Elements(ts);
      ExpansionMentioned(cs[n], ts[i]);
    }
    KeptWithin(relevant, ss, MentionedIn(cs[..n]));
    KeptWithin(relevant, ts, Mentioned(cs[n]));
  }

  lemma {:induction false} TraverseOrIsPruned(relevant: set<string>, cs: seq<Node>)
    requires OperandsApartIn(relevant, cs)
    ensures TraverseOr(relevant, cs) == Pruned(KeptAll(relevant, LeftMajorOr(cs)))
    decreases cs, 0
  {
    if cs != [] {
      var n := |cs| - 1;
      TraverseOrIsPruned(relevant, cs[..n]);
      TraversalIsPruned(relevant, cs[n]);
      KeptAllConcat(relevant, LeftMajorOr(cs[..n]), LeftMajor(cs[n]));
      PrunedConcat(KeptAll(relevant, LeftMajorOr(cs[..n])), KeptAll(relevant, LeftMajor(cs[n])));
    }
  }

  // ----- what Solve reports

  ghost predicate Positive(costs: map<string, int>) {
    forall m | m in costs :: costs[m] > 0
  }

  /** Set m of the ordered expansion of program set i has the target. */
  ghost predicate Offers(p: Program, target: string, i: int, m: int) {
    0 <= i < |p.sets| && 0 <= m < |LeftMajor(p.sets[i].root)| && target in LeftMajor(p.sets[i].root)[m]
  }

  ghost function CostAt(p: Program, running: seq<string>, costs: map<string, int>, i: int, m: int): int
    requires 0 <= i < |p.sets| && 0 <= m < |LeftMajor(p.sets[i].root)|
  {
    Cost(costs, running, LeftMajor(p.sets[i].root)[m])
  }

  /** It is the first of the cheapest sets with the target, over all program sets and their ordered expansions. */
  ghost predicate FirstInExpansion(p: Program, target: string, running: seq<string>, costs: map<string, int>,
                                   i: int, m: int) {
    && Offers(p, target, i, m)
    && forall j, k | Offers(p, target, j, k) ::
         && CostAt(p, running, costs, i, m) <= CostAt(p, running, costs, j, k)
         && (Before(j, k, i, m) ==> CostAt(p, running, costs, i, m) < CostAt(p, running, costs, j, k))
  }

  /** Keeping one more running model is strictly cheaper when costs are positive. */
  lemma {:induction false} StrictlyCheaper(costs: map<string, int>, running: seq<string>, a: set<string>,
                                           b: set<string>, r: string)
    requires Positive(costs) && (forall m | m in running && m in a :: m in b)
    requires r in running && r in b && r !in a
    ensures Cost(costs, running, b) < Cost(costs, running, a)
  {
    var n := |running| - 1;
    CostMonotone(costs, running[..n], a, b);
    if running[n] != r { StrictlyCheaper(costs, running[..n], a, b, r); }
  }

  /** Where a sifted choice comes from: what was sifted before it comes from before it. */
  lemma {:induction false} SiftedFrom(ks: seq<Kept>, all: set<set<string>>, k: nat) returns (m: nat)
    requires k < |Sift(ks, all, {})|
    ensures m < |ks| && ks[m] == Sift(ks, all, {})[k] && Sift(ks[..m], all, {}) == Sift(ks, all, {})[..k]
  {
    var n := |ks| - 1;
    var rest := Sift(ks[..n], all, {});
    if k < |rest| {
      m := SiftedFrom(ks[..n], all, k);
      assert ks[..n][..m] == ks[..m] && Sift(ks, all, {})[..k] == rest[..k];
    } else {
      m := n;
      assert Sift(ks, all, {})[..k] == rest;
    }
  }

  /** A cheapest state that is the first of its kind comes from the first cheapest set of its ordered expansion. */
  lemma FirstOfSet(p: Program, target: string, running: seq<string>, costs: map<string, int>, i: int, k: int)
      returns (m: nat)
    requires Positive(costs) && target !in running && FirstCheapest(p, target, running, costs, i, k)
    requires OperandsApart(Relevant(target, running), p.sets[i].root)
    ensures Offers(p, target, i, m)
    ensures StatesOf(p, Relevant(target, running), i)[k] ==
            KeptOf(Relevant(target, running), LeftMajor(p.sets[i].root)[m])
    ensures forall j | 0 <= j < m && Offers(p, target, i, j) ::
              CostAt(p, running, costs, i, m) < CostAt(p, running, costs, i, j)
  {
    var relevant, l := Relevant(target, running), LeftMajor(p.sets[i].root);
    m := Origin(p, relevant, i, k);
    KeptAllAt(relevant, l);
    SameKept(costs, running, l[m], StatesOf(p, relevant, i)[k].seen);
    forall j | 0 <= j < m && Offers(p, target, i, j)
      ensures CostAt(p, running, costs, i, m) < CostAt(p, running, costs, i, j)
    {
      EarlierIsDearer(p, target, running, costs, i, k, m, j);
    }
  }

  lemma Origin(p: Program, relevant: set<string>, i: int, k: int) returns (m: nat)
    requires 0 <= i < |p.sets| && 0 <= k < |StatesOf(p, relevant, i)| && OperandsApart(relevant, p.sets[i].root)
    ensures ComesFrom(p, relevant, i, k, m)
  {
    var ks := KeptAll(relevant, LeftMajor(p.sets[i].root));
    TraversalIsPruned(relevant, p.sets[i].root);
    PrunedIsSift(ks);
    KeptAllAt(relevant, LeftMajor(p.sets[i].root));
    m := SiftedFrom(ks, Seens(ks), k);
  }

  /** State k of set i stands where set m of the ordered expansion does. */
  ghost predicate ComesFrom(p: Program, relevant: set<string>, i: int, k: int, m: int)
    requires 0 <= i < |p.sets|
  {
    var ks := KeptAll(relevant, LeftMajor(p.sets[i].root));
    && 0 <= m < |ks| == |LeftMajor(p.sets[i].root)| && 0 <= k < |StatesOf(p, relevant, i)|
    && ks[m] == StatesOf(p, relevant, i)[k] && Sift(ks[..m], Seens(ks), {}) == StatesOf(p, relevant, i)[..k]
  }

  /** What keeps less than some set with the target costs more than the first cheapest state. */
  lemma BelowIsDearer(p: Program, target: string, running: seq<string>, costs: map<string, int>, i: int, k: int,
                      s: set<string>, t: set<string>)
    requires Positive(costs) && target !in running && FirstCheapest(p, target, running, costs, i, k)
    requires Candidate(p, target, i, s) && target in t && t < s * Relevant(target, running)
    ensures Price(p, Relevant(target, running), target, running, costs, i, k) < Cost(costs, running, t)
  {
    var r :| r in s * Relevant(target, running) && r !in t;
    StrictlyCheaper(costs, running, t, s, r);
    var g := StateUnder(p, target, running, costs, i, s);
  }

  /** So does what an earlier state keeps. */
  lemma SoonerIsDearer(p: Program, target: string, running: seq<string>, costs: map<string, int>, i: int, k: int,
                       t: set<string>)
    requires FirstCheapest(p, target, running, costs, i, k) && target in t
    requires t in Seens(StatesOf(p, Relevant(target, running), i)[..k])
    ensures Price(p, Relevant(target, running), target, running, costs, i, k) < Cost(costs, running, t)
  {
    var states := StatesOf(p, Relevant(target, running), i);
    var h :| 0 <= h < |states[..k]| && t == states[..k][h].seen;
    assert Yields(p, Relevant(target, running), target, i, h) && Before(i, h, i, k);
  }

  lemma EarlierIsDearer(p: Program, target: string, running: seq<string>, costs: map<string, int>, i: int, k: int,
                        m: int, j: int)
    requires Positive(costs) && target !in running && FirstCheapest(p, target, running, costs, i, k)
    requires ComesFrom(p, Relevant(target, running), i, k, m)
    requires 0 <= j < m && Offers(p, target, i, j)
    ensures Price(p, Relevant(target, running), target, running, costs, i, k) < CostAt(p, running, costs, i, j)
  {
    var relevant, l := Relevant(target, running), LeftMajor(p.sets[i].root);
    var ks := KeptAll(relevant, l);
    KeptAllAt(relevant, l);
    var t := l[j] * relevant;
    SameKept(costs, running, l[j], t);
    assert ks[..m][j] == ks[j] && ks[j].seen == t;
    assert t in Seens(ks[..m]);
    if Top(t, Seens(ks)) {
      SiftSubset(ks[..m], Seens(ks), {});
      assert t in Seens(Sift(ks[..m], Seens(ks), {}));
      SoonerIsDearer(p, target, running, costs, i, k, t);
    } else {
      var h := NotTop(relevant, l, t);
      LeftMajorElements(p.sets[i].root);
      assert l[h] in Elements(l);
      BelowIsDearer(p, target, running, costs, i, k, l[h], t);
    }
  }

  lemma NotTop(relevant: set<string>, l: seq<set<string>>, t: set<string>) returns (h: nat)
    requires !Top(t, Seens(KeptAll(relevant, l)))
    ensures h < |l| && t < l[h] * relevant
  {
    var ks := KeptAll(relevant, l);
    KeptAllAt(relevant, l);
    var u :| u in Seens(ks) && t < u;
    var i :| 0 <= i < |ks| && ks[i].seen == u;
    h := i;
  }

  /** With positive costs, and where no AND has operands that share a relevant model, Solve reports the first of the
      cheapest sets of the full expansion in order. */
  lemma FirstOfExpansionIsReported(p: Program, target: string, running: seq<string>, costs: map<string, int>,
                                   d: Decision)
    requires Positive(costs) && target !in running && Picked(p, target, running, costs, d)
    requires exists i, s :: Candidate(p, target, i, s)
    requires forall i | 0 <= i < |p.sets| :: OperandsApart(Relevant(target, running), p.sets[i].root)
    ensures exists i, m :: FirstInExpansion(p, target, running, costs, i, m)
                           && Reports(p, running, costs, d, i, LeftMajor(p.sets[i].root)[m])
  {
    var relevant := Relevant(target, running);
    var i0, s0 :| Candidate(p, target, i0, s0);
    var k0 := StateUnder(p, target, running, costs, i0, s0);
    var i, k :| FirstCheapest(p, target, running, costs, i, k)
                && ReportsState(p, running, costs, d, i, StatesOf(p, relevant, i)[k]);
    var m := FirstOfSet(p, target, running, costs, i, k);
    var s := LeftMajor(p.sets[i].root)[m];
    SameKept(costs, running, s, StatesOf(p, relevant, i)[k].seen);
    FirstOfAll(p, target, running, costs, i, k, m);
    assert Reports(p, running, costs, d, i, s);
  }

  /** Being first within its own expansion, it is first over all. */
  lemma FirstOfAll(p: Program, target: string, running: seq<string>, costs: map<string, int>, i: int, k: int, m: int)
    requires Positive(costs) && FirstCheapest(p, target, running, costs, i, k) && Offers(p, target, i, m)
    requires CostAt(p, running, costs, i, m) == Price(p, Relevant(target, running), target, running, costs, i, k)
    requires forall j | 0 <= j < m && Offers(p, target, i, j) ::
               CostAt(p, running, costs, i, m) < CostAt(p, running, costs, i, j)
    ensures FirstInExpansion(p, target, running, costs, i, m)
  {
    forall j, h | Offers(p, target, j, h)
      ensures CostAt(p, running, costs, i, m) <= CostAt(p, running, costs, j, h)
      ensures j < i ==> CostAt(p, running, costs, i, m) < CostAt(p, running, costs, j, h)
    {
      var t := LeftMajor(p.sets[j].root)[h];
      LeftMajorElements(p.sets[j].root);
      assert t in Elements(LeftMajor(p.sets[j].root)) && Candidate(p, target, j, t);
      var g := StateUnder(p, target, running, costs, j, t);
    }
  }
}
