/** Deleting terms that stand for an empty orphan set. */
module MatrixSimplify {
  import opened MatrixNodes

  /** The term stands for an empty orphan set: directly, through references, or because all its parts do. */
  ghost predicate Vanishes(n: Node)
    decreases n, 0
  {
    match n
    case Leaf(_) => false
    case Ref(_, r) => Vanishes(r)
    case And(cs) => forall i | 0 <= i < |cs| :: Vanishes(cs[i])
    case Or(cs) => forall i | 0 <= i < |cs| :: Vanishes(cs[i])
    case Empty => true
  }

  /** The sets an expression means once every vanishing term is deleted from it. */
  ghost function Meaning(n: Node): set<set<string>>
    decreases n, 1
  {
    if Vanishes(n) then {}
    else
      match n
      case Leaf(m) => {{m}}
      case Ref(_, r) => Meaning(r)
      case And(cs) => MeaningAnd(cs)
      case Or(cs) => MeaningOr(cs)
      case Empty => {}
  }

  ghost function MeaningAnd(cs: seq<Node>): set<set<string>>
    decreases cs, 0
  {
    if cs == [] then {{}}
    else
      var k := |cs| - 1;
      if Vanishes(cs[k]) then MeaningAnd(cs[..k]) else Join(MeaningAnd(cs[..k]), Meaning(cs[k]))
  }

  ghost function MeaningOr(cs: seq<Node>): set<set<string>>
    decreases cs, 0
  {
    if cs == [] then {}
    else MeaningOr(cs[..|cs| - 1]) + Meaning(cs[|cs| - 1])
  }

  /** simplifyEmptyRefs on linked nodes. */
  ghost function Simplified(n: Node): Node
    decreases n, 1
  {
    match n
    case Leaf(_) => n
    case Empty => n
    case Ref(name, r) => if Simplified(r) == Empty then Empty else Ref(name, Simplified(r))
    case And(cs) => Collapse(n, Remaining(cs))
    case Or(cs) => Collapse(n, Remaining(cs))
  }

  ghost function Remaining(cs: seq<Node>): seq<Node>
    decreases cs, 0
  {
    if cs == [] then []
    else
      var k := |cs| - 1;
      var c := Simplified(cs[k]);
      Remaining(cs[..k]) + if c == Empty then [] else [c]
  }

  /** An operator with no part left is empty, and with one part left is that part. */
  ghost function Collapse(n: Node, cs: seq<Node>): Node
    requires n.And? || n.Or?
  {
    if cs == [] then Empty
    else if |cs| == 1 then cs[0]
    else if n.And? then And(cs) else Or(cs)
  }

  /** Every operator has at least two operands. */
  ghost predicate Branching(n: Node)
    decreases n, 0
  {
    match n
    case Ref(_, r) => Branching(r)
    case And(cs) => |cs| >= 2 && forall i | 0 <= i < |cs| :: Branching(cs[i])
    case Or(cs) => |cs| >= 2 && forall i | 0 <= i < |cs| :: Branching(cs[i])
    case _ => true
  }

  lemma {:induction false} EmptyIffVanishes(n: Node)
    ensures Simplified(n) == Empty <==> Vanishes(n)
    decreases n, 1
  {
    match n
    case Leaf(_) =>
    case Empty =>
    case Ref(_, r) => EmptyIffVanishes(r);
    case And(cs) => RemainingIffVanishes(cs);
    case Or(cs) => RemainingIffVanishes(cs);
  }

  lemma {:induction false} RemainingIffVanishes(cs: seq<Node>)
    ensures Remaining(cs) == [] <==> forall i | 0 <= i < |cs| :: Vanishes(cs[i])
    ensures forall i | 0 <= i < |Remaining(cs)| :: Remaining(cs)[i] != Empty
    decreases cs, 0
  {
    if cs != [] {
      var k := |cs| - 1;
      RemainingIffVanishes(cs[..k]);
      EmptyIffVanishes(cs[k]);
      assert forall i | 0 <= i < k :: cs[..k][i] == cs[i];
    }
  }

  /** Simplification keeps exactly the meaning with vanishing terms deleted. */
  lemma {:induction false} SimplifiedMeans(n: Node)
    ensures Expansion(Simplified(n)) == Meaning(n)
    decreases n, 1
  {
    EmptyIffVanishes(n);
    match n
    case Leaf(_) =>
    case Empty =>
    case Ref(_, r) => SimplifiedMeans(r);
    case And(cs) =>
      RemainingMeansAnd(cs);
      RemainingIffVanishes(cs);
      if Remaining(cs) != [] { CollapseMeans(n, Remaining(cs)); }
    case Or(cs) =>
      RemainingMeansOr(cs);
      RemainingIffVanishes(cs);
      if Remaining(cs) != [] { CollapseMeans(n, Remaining(cs)); }
  }

  /** A term stands for no set at all exactly when it vanishes. */
  lemma MeansNothingIffVanishes(n: Node)
    ensures Meaning(n) == {} <==> Vanishes(n)
  {
    EmptyIffVanishes(n);
    SimplifiedMeans(n);
    SimplifiedIsCompact(n);
    if !Vanishes(n) { var w := Inhabited(Simplified(n)); }
  }

  /** With some operand left, an operator means the same collapsed. */
  lemma CollapseMeans(n: Node, cs: seq<Node>)
    requires cs != []
    ensures n.And? ==> Expansion(Collapse(n, cs)) == Combinations(cs)
    ensures n.Or? ==> Expansion(Collapse(n, cs)) == Alternatives(cs)
  {
    if |cs| == 1 {
      OneOperand(cs[0]);
      assert cs == [cs[0]];
    }
  }

  lemma OneOperand(c: Node)
    ensures Combinations([c]) == Expansion(c) && Alternatives([c]) == Expansion(c)
  {
    assert [c][..0] == [];
    JoinUnit(Expansion(c));
  }

  lemma JoinUnit(f: set<set<string>>)
    ensures Join({{}}, f) == f
  {
    var none: set<string> := {};
    forall s | s in f ensures s in Join({none}, f) {
      assert none in {none} && none + s == s;
    }
    forall s | s in Join({none}, f) ensures s in f {
      var x, y :| x in {none} && y in f && s == x + y;
      assert s == y;
    }
  }

  lemma {:induction false} RemainingMeansAnd(cs: seq<Node>)
    ensures Combinations(Remaining(cs)) == MeaningAnd(cs)
    decreases cs, 0
  {
    if cs != [] {
      var k := |cs| - 1;
      var r := Remaining(cs[..k]);
      RemainingMeansAnd(cs[..k]);
      EmptyIffVanishes(cs[k]);
      SimplifiedMeans(cs[k]);
      if Vanishes(cs[k]) {
        assert Remaining(cs) == r;
      } else {
        assert (r + [Simplified(cs[k])])[..|r|] == r;
      }
    }
  }

  lemma {:induction false} RemainingMeansOr(cs: seq<Node>)
    ensures Alternatives(Remaining(cs)) == MeaningOr(cs)
    decreases cs, 0
  {
    if cs != [] {
      var k := |cs| - 1;
      var r := Remaining(cs[..k]);
      RemainingMeansOr(cs[..k]);
      EmptyIffVanishes(cs[k]);
      SimplifiedMeans(cs[k]);
      if Vanishes(cs[k]) {
        assert Remaining(cs) == r;
      } else {
        assert (r + [Simplified(cs[k])])[..|r|] == r;
      }
    }
  }

  /** No empty node is left under an operator, and every operator keeps at least two operands. */
  lemma {:induction false} SimplifiedIsCompact(n: Node)
    ensures Compact(Simplified(n)) && Branching(Simplified(n))
    decreases n, 1
  {
    match n
    case Leaf(_) =>
    case Empty =>
    case Ref(_, r) => SimplifiedIsCompact(r);
    case And(cs) => RemainingIsCompact(cs);
    case Or(cs) => RemainingIsCompact(cs);
  }

  lemma {:induction false} RemainingIsCompact(cs: seq<Node>)
    ensures CompactAll(Remaining(cs))
    ensures forall i | 0 <= i < |Remaining(cs)| :: Branching(Remaining(cs)[i])
    decreases cs, 0
  {
    if cs != [] {
      RemainingIsCompact(cs[..|cs| - 1]);
      SimplifiedIsCompact(cs[|cs| - 1]);
    }
  }

  /** An expression already in that form is left as it is. */
  lemma {:induction false} SimplifiedKeeps(n: Node)
    requires Branching(n) && !Vanishes(n) && Compact(n)
    ensures Simplified(n) == n
    decreases n, 1
  {
    match n
    case Leaf(_) =>
    case Ref(_, r) => SimplifiedKeeps(r);
    case And(cs) => RemainingKeeps(cs);
    case Or(cs) => RemainingKeeps(cs);
  }

  lemma {:induction false} RemainingKeeps(cs: seq<Node>)
    requires forall i | 0 <= i < |cs| :: Branching(cs[i]) && cs[i] != Empty && Compact(cs[i])
    ensures Remaining(cs) == cs
    decreases cs, 0
  {
    if cs != [] {
      var k := |cs| - 1;
      RemainingKeeps(cs[..k]);
      CompactStays(cs[k]);
      SimplifiedKeeps(cs[k]);
      assert cs == cs[..k] + [cs[k]];
    }
  }

  lemma {:induction false} CompactStays(n: Node)
    requires Branching(n) && n != Empty && Compact(n)
    ensures !Vanishes(n)
    decreases n, 0
  {
    match n
    case Leaf(_) =>
    case Ref(_, r) => CompactStays(r);
    case And(cs) => CompactStays(cs[0]);
    case Or(cs) => CompactStays(cs[0]);
  }
}
