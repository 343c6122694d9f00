/** Linked expressions and what they describe. */
module MatrixNodes {

  /** A linked expression: a reference carries the node it points at. */
  datatype Node =
    | Leaf(model: string)
    | Ref(name: string, ref: Node)
    | And(children: seq<Node>)
    | Or(children: seq<Node>)
    | Empty

  /** The full Cartesian expansion: every model set the expression describes. */
  ghost function Expansion(n: Node): set<set<string>>
    decreases n, 0
  {
    match n
    case Leaf(m) => {{m}}
    case Ref(_, r) => Expansion(r)
    case And(cs) => Combinations(cs)
    case Or(cs) => Alternatives(cs)
    case Empty => {}
  }

  /** One set of each child, united. */
  ghost function Combinations(cs: seq<Node>): set<set<string>>
    decreases cs, 0
  {
    if cs == [] then {{}}
    else Join(Combinations(cs[..|cs| - 1]), Expansion(cs[|cs| - 1]))
  }

  /** The sets of any one child. */
  ghost function Alternatives(cs: seq<Node>): set<set<string>>
    decreases cs, 0
  {
    if cs == [] then {}
    else Alternatives(cs[..|cs| - 1]) + Expansion(cs[|cs| - 1])
  }

  ghost function Join(a: set<set<string>>, b: set<set<string>>): (r: set<set<string>>)
    ensures forall x, y | x in a && y in b :: x + y in r
  {
    set x, y | x in a && y in b :: x + y
  }

  /** Every model the expression mentions. */
  ghost function Mentioned(n: Node): set<string>
    decreases n, 0
  {
    match n
    case Leaf(m) => {m}
    case Ref(_, r) => Mentioned(r)
    case And(cs) => MentionedIn(cs)
    case Or(cs) => MentionedIn(cs)
    case Empty => {}
  }

  ghost function MentionedIn(cs: seq<Node>): set<string>
    decreases cs, 0
  {
    if cs == [] then {}
    else MentionedIn(cs[..|cs| - 1]) + Mentioned(cs[|cs| - 1])
  }

  lemma {:induction false} ExpansionMentioned(n: Node, s: set<string>)
    requires s in Expansion(n)
    ensures s <= Mentioned(n)
    decreases n, 0
  {
    match n
    case Leaf(_) =>
    case Ref(_, r) => ExpansionMentioned(r, s);
    case And(cs) => CombinationsMentioned(cs, s);
    case Or(cs) => AlternativesMentioned(cs, s);
  }

  lemma {:induction false} CombinationsMentioned(cs: seq<Node>, s: set<string>)
    requires s in Combinations(cs)
    ensures s <= MentionedIn(cs)
    decreases cs, 0
  {
    if cs != [] {
      var k := |cs| - 1;
      var x, y :| x in Combinations(cs[..k]) && y in Expansion(cs[k]) && s == x + y;
      CombinationsMentioned(cs[..k], x);
      ExpansionMentioned(cs[k], y);
    }
  }

  lemma {:induction false} AlternativesMentioned(cs: seq<Node>, s: set<string>)
    requires s in Alternatives(cs)
    ensures s <= MentionedIn(cs)
    decreases cs, 0
  {
    var k := |cs| - 1;
    if s in Expansion(cs[k]) {
      ExpansionMentioned(cs[k], s);
    } else {
      AlternativesMentioned(cs[..k], s);
    }
  }

  /** No empty node stands under an operator or behind a reference, and every operator has a child. */
  ghost predicate Compact(n: Node)
    decreases n, 0
  {
    match n
    case Leaf(_) => true
    case Ref(_, r) => r != Empty && Compact(r)
    case And(cs) => cs != [] && CompactAll(cs)
    case Or(cs) => cs != [] && CompactAll(cs)
    case Empty => true
  }

  ghost predicate CompactAll(cs: seq<Node>)
    decreases cs, 0
  {
    forall i | 0 <= i < |cs| :: cs[i] != Empty && Compact(cs[i])
  }

  /** A compact expression describes at least one set. */
  lemma {:induction false} Inhabited(n: Node) returns (w: set<string>)
    requires Compact(n) && n != Empty
    ensures w in Expansion(n)
    decreases n, 0
  {
    match n
    case Leaf(m) => w := {m};
    case Ref(_, r) => w := Inhabited(r);
    case And(cs) => w := InhabitedCombinations(cs);
    case Or(cs) => w := Inhabited(cs[|cs| - 1]);
  }

  lemma {:induction false} InhabitedCombinations(cs: seq<Node>) returns (w: set<string>)
    requires CompactAll(cs)
    ensures w in Combinations(cs)
    decreases cs, 0
  {
    if cs == [] {
      w := {};
    } else {
      var x := InhabitedCombinations(cs[..|cs| - 1]);
      var y := Inhabited(cs[|cs| - 1]);
      w := x + y;
    }
  }

  /** In a compact expression every mentioned model occurs in some described set. */
  lemma {:induction false} MentionedOccurs(n: Node, m: string) returns (s: set<string>)
    requires Compact(n) && m in Mentioned(n)
    ensures s in Expansion(n) && m in s
    decreases n, 0
  {
    match n
    case Leaf(_) => s := {m};
    case Ref(_, r) => s := MentionedOccurs(r, m);
    case And(cs) => s := MentionedOccursAnd(cs, m);
    case Or(cs) => s := MentionedOccursOr(cs, m);
  }

  lemma {:induction false} MentionedOccursAnd(cs: seq<Node>, m: string) returns (s: set<string>)
    requires CompactAll(cs) && m in MentionedIn(cs)
    ensures s in Combinations(cs) && m in s
    decreases cs, 0
  {
    var k := |cs| - 1;
    var x, y;
    if m in Mentioned(cs[k]) {
      x := InhabitedCombinations(cs[..k]);
      y := MentionedOccurs(cs[k], m);
    } else {
      x := MentionedOccursAnd(cs[..k], m);
      y := Inhabited(cs[k]);
    }
    s := x + y;
  }

  lemma {:induction false} MentionedOccursOr(cs: seq<Node>, m: string) returns (s: set<string>)
    requires CompactAll(cs) && m in MentionedIn(cs)
    ensures s in Alternatives(cs) && m in s
    decreases cs, 0
  {
    var k := |cs| - 1;
    if m in Mentioned(cs[k]) {
      s := MentionedOccurs(cs[k], m);
    } else {
      s := MentionedOccursOr(cs[..k], m);
    }
  }
}
