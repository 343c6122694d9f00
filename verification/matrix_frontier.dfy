/** Projected states and their frontier. */
module MatrixFrontier {
  import opened BitMasks
  import opened Slices
  import opened MatrixTraversal

  /** The choice behind a state: a leaf names its model, an inner node has an empty name. */
  datatype Witness = Nothing | Choice(model: string, left: Witness, right: Witness)

  datatype State = State(mask: BitMask, origin: Witness)

  /** The models a witness names. */
  ghost function Models(w: Witness): set<string> {
    match w
    case Nothing => {}
    case Choice(m, l, r) => (if m != "" then {m} else {}) + Models(l) + Models(r)
  }

  ghost predicate Owned(bits: map<string, nat>, b: nat) {
    exists m :: m in bits && bits[m] == b
  }

  /** Query-local bit positions: distinct, and exactly 0 .. |bits|-1. */
  ghost predicate Registered(bits: map<string, nat>, words: nat) {
    && words == (|bits| + 63) / 64
    && (forall m | m in bits :: bits[m] < |bits|)
    && (forall m, m' | m in bits && m' in bits && m != m' :: bits[m] != bits[m'])
    && (forall b: nat | b < |bits| :: Owned(bits, b))
  }

  /** The relevant models a mask stands for. */
  ghost function Seen(bits: map<string, nat>, mask: BitMask): set<string> {
    set m | m in bits && bits[m] in Bits(mask)
  }

  ghost predicate MaskOk(bits: map<string, nat>, words: nat, mask: BitMask) {
    |mask| == words && forall b | b in Bits(mask) :: Owned(bits, b)
  }

  lemma SubsetIsSeen(bits: map<string, nat>, words: nat, a: BitMask, b: BitMask)
    requires MaskOk(bits, words, a) && MaskOk(bits, words, b)
    ensures Bits(a) <= Bits(b) <==> Seen(bits, a) <= Seen(bits, b)
  {
    if Seen(bits, a) <= Seen(bits, b) {
      forall k | k in Bits(a) ensures k in Bits(b) {
        var m :| m in bits && bits[m] == k;
        assert m in Seen(bits, a);
      }
    }
  }

  lemma UnionIsSeen(bits: map<string, nat>, words: nat, a: BitMask, b: BitMask, u: BitMask)
    requires MaskOk(bits, words, a) && MaskOk(bits, words, b)
    requires |u| == words && Bits(u) == Bits(a) + Bits(b)
    ensures MaskOk(bits, words, u) && Seen(bits, u) == Seen(bits, a) + Seen(bits, b)
  {
  }

  lemma LeafSeen(bits: map<string, nat>, words: nat, model: string, mask: BitMask)
    requires Registered(bits, words) && |mask| == words
    requires Bits(mask) == if model in bits then {bits[model]} else {}
    ensures MaskOk(bits, words, mask) && Seen(bits, mask) == {model} * bits.Keys
  {
  }

  ghost predicate MasksOk(bits: map<string, nat>, words: nat, states: seq<State>) {
    forall i | 0 <= i < |states| :: MaskOk(bits, words, states[i].mask)
  }

  /** What a state keeps, and the models its witness names. */
  ghost function View(bits: map<string, nat>, st: State): Kept {
    Kept(Seen(bits, st.mask), Models(st.origin))
  }

  /** The state stands for the choice. */
  ghost predicate Stands(bits: map<string, nat>, words: nat, st: State, k: Kept) {
    MaskOk(bits, words, st.mask) && View(bits, st) == k
  }

  /** The states stand, one by one, for the choices. */
  ghost predicate Shows(bits: map<string, nat>, words: nat, states: seq<State>, ks: seq<Kept>) {
    |states| == |ks| && forall i | 0 <= i < |states| :: Stands(bits, words, states[i], ks[i])
  }

  /** Some state keeps all of s. */
  ghost predicate Covers(bits: map<string, nat>, states: seq<State>, s: set<string>) {
    exists i :: 0 <= i < |states| && s <= Seen(bits, states[i].mask)
  }

  /** The states not below c, in order. */
  ghost function NotBelow(bits: map<string, nat>, states: seq<State>, c: State): seq<State> {
    if states == [] then []
    else
      var n := |states| - 1;
      NotBelow(bits, states[..n], c)
      + if Seen(bits, states[n].mask) <= Seen(bits, c.mask) then [] else [states[n]]
  }

  /** What adding a candidate makes of a frontier. */
  ghost function Inserted(bits: map<string, nat>, states: seq<State>, c: State): seq<State> {
    if Covers(bits, states, Seen(bits, c.mask)) then states
    else NotBelow(bits, states, c) + [c]
  }

  lemma NotBelowStep(bits: map<string, nat>, states: seq<State>, i: nat, c: State)
    requires i < |states|
    ensures NotBelow(bits, states[..i + 1], c) ==
            NotBelow(bits, states[..i], c)
            + if Seen(bits, states[i].mask) <= Seen(bits, c.mask) then [] else [states[i]]
  {
    assert states[..i + 1][..i] == states[..i];
  }

  lemma {:induction false} NotBelowShows(bits: map<string, nat>, words: nat, states: seq<State>, ks: seq<Kept>,
                                         c: State)
    requires Shows(bits, words, states, ks)
    ensures Shows(bits, words, NotBelow(bits, states, c), Beyond(ks, Seen(bits, c.mask)))
  {
    if states != [] {
      var n := |states| - 1;
      NotBelowShows(bits, words, states[..n], ks[..n], c);
      ShowsNext(bits, words, NotBelow(bits, states[..n], c), Beyond(ks[..n], Seen(bits, c.mask)), states[n]);
      assert NotBelow(bits, states[..n], c) + [] == NotBelow(bits, states[..n], c);
      assert Beyond(ks[..n], Seen(bits, c.mask)) + [] == Beyond(ks[..n], Seen(bits, c.mask));
    }
  }

  lemma ShowsNext(bits: map<string, nat>, words: nat, states: seq<State>, ks: seq<Kept>, st: State)
    requires Shows(bits, words, states, ks) && MaskOk(bits, words, st.mask)
    ensures Shows(bits, words, states + [st], ks + [View(bits, st)])
  {
  }

  /** Adding a candidate state is inserting its choice. */
  lemma InsertedShows(bits: map<string, nat>, words: nat, states: seq<State>, ks: seq<Kept>, c: State)
    requires Shows(bits, words, states, ks) && MaskOk(bits, words, c.mask)
    ensures Shows(bits, words, Inserted(bits, states, c), Insert(ks, View(bits, c)))
  {
    CoversIsUnder(bits, words, states, ks, Seen(bits, c.mask));
    NotBelowShows(bits, words, states, ks, c);
    ShowsNext(bits, words, NotBelow(bits, states, c), Beyond(ks, Seen(bits, c.mask)), c);
  }

  lemma CoversIsUnder(bits: map<string, nat>, words: nat, states: seq<State>, ks: seq<Kept>, s: set<string>)
    requires Shows(bits, words, states, ks)
    ensures Covers(bits, states, s) <==> Under(ks, s)
  {
    if i :| 0 <= i < |ks| && s <= ks[i].seen { assert Stands(bits, words, states[i], ks[i]); }
    if i :| 0 <= i < |states| && s <= Seen(bits, states[i].mask) { assert Stands(bits, words, states[i], ks[i]); }
  }

  /** Whether some state already keeps everything the candidate keeps. */
  method Dominated(ghost bits: map<string, nat>, ghost words: nat, states: Slice<State>, candidate: State)
      returns (r: bool)
    requires states.Valid()
    requires MasksOk(bits, words, states.Contents()) && MaskOk(bits, words, candidate.mask)
    ensures r <==> Covers(bits, states.Contents(), Seen(bits, candidate.mask))
  {
    ghost var s := states.Contents();
    for i := 0 to states.len
      invariant forall k | 0 <= k < i :: !(Seen(bits, candidate.mask) <= Seen(bits, s[k].mask))
    {
      var below := SubsetOf(candidate.mask, states.arr[i].mask);
      assert s[i] == states.arr[i];
      SubsetIsSeen(bits, words, candidate.mask, s[i].mask);
      if below { return true; }
    }
    return false;
  }

  /** Refills the front of the slice's own array with the states the candidate does not dominate. */
  method DropBelow(ghost bits: map<string, nat>, ghost words: nat, states: Slice<State>, candidate: State)
      returns (kept: Slice<State>)
    requires states.Valid()
    requires MasksOk(bits, words, states.Contents()) && MaskOk(bits, words, candidate.mask)
    modifies states.Backing()
    ensures kept.Valid() && kept.arr == states.arr
    ensures kept.Contents() == NotBelow(bits, old(states.Contents()), candidate)
  {
    ghost var before := states.Contents();
    kept := Slice(states.arr, 0);
    for i := 0 to states.len
      invariant Dropping(bits, states, before, i, candidate, kept)
    {
      kept := DropOne(bits, words, states, before, i, candidate, kept);
    }
    assert before[..states.len] == before;
  }

  /** The first i states have been looked at, and the front of the array holds those of them that stay. */
  ghost predicate Dropping(bits: map<string, nat>, states: Slice<State>, before: seq<State>, i: nat, candidate: State,
                           kept: Slice<State>)
    reads states.Backing()
  {
    && states.Valid() && |before| == states.len && kept.arr == states.arr && kept.Valid() && kept.len <= i <= states.len
    && (forall k | i <= k < states.len :: states.arr[k] == before[k])
    && kept.Contents() == NotBelow(bits, before[..i], candidate)
  }

  method DropOne(ghost bits: map<string, nat>, ghost words: nat, states: Slice<State>, ghost before: seq<State>, i: nat,
                 candidate: State, kept: Slice<State>)
      returns (r: Slice<State>)
    requires Dropping(bits, states, before, i, candidate, kept) && i < states.len
    requires MasksOk(bits, words, before) && MaskOk(bits, words, candidate.mask)
    modifies states.Backing()
    ensures Dropping(bits, states, before, i + 1, candidate, r)
  {
    r := kept;
    var state := states.arr[i];
    NotBelowStep(bits, before, i, candidate);
    SubsetIsSeen(bits, words, before[i].mask, candidate.mask);
    var below := SubsetOf(state.mask, candidate.mask);
    if !below {
      r := Append(kept, state);
    }
  }

  /** Adds a candidate, compacting the slice's backing array in place. */
  method AddToFrontier(ghost bits: map<string, nat>, ghost words: nat, states: Slice<State>, candidate: State)
      returns (r: Slice<State>)
    requires states.Valid()
    requires MasksOk(bits, words, states.Contents()) && MaskOk(bits, words, candidate.mask)
    modifies states.Backing()
    ensures r.Valid() && r.Contents() == Inserted(bits, old(states.Contents()), candidate)
    ensures r.arr == states.arr || fresh(r.Backing())
  {
    var dominated := Dominated(bits, words, states, candidate);
    if dominated {
      return states;
    }
    var kept := DropBelow(bits, words, states, candidate);
    r := Append(kept, candidate);
  }

  /** Adds a candidate to a slice that stands for a list of choices. */
  method Grow(ghost bits: map<string, nat>, ghost words: nat, ghost ks: seq<Kept>, states: Slice<State>,
              candidate: State)
      returns (r: Slice<State>)
    requires states.Valid() && Shows(bits, words, states.Contents(), ks) && MaskOk(bits, words, candidate.mask)
    modifies states.Backing()
    ensures r.Valid() && (r.arr == states.arr || fresh(r.Backing()))
    ensures Shows(bits, words, r.Contents(), Insert(ks, View(bits, candidate)))
  {
    InsertedShows(bits, words, states.Contents(), ks, candidate);
    r := AddToFrontier(bits, words, states, candidate);
  }

  /** A fresh slice of one state. */
  method Single(ghost bits: map<string, nat>, ghost words: nat, state: State) returns (states: Slice<State>)
    requires MaskOk(bits, words, state.mask)
    ensures states.Valid() && fresh(states.Backing())
    ensures Shows(bits, words, states.Contents(), [View(bits, state)])
  {
    var a := new State[1](_ => state);
    states := Slice(a, 1);
    assert states.Contents() == [] + [state];
    ShowsNext(bits, words, [], [], state);
  }

  lemma ViewsFront(bits: map<string, nat>, words: nat, states: seq<State>, ks: seq<Kept>, k: nat)
    requires Shows(bits, words, states, ks) && k < |states|
    ensures ks[..k + 1][..k] == ks[..k] && ks[..k + 1][k] == View(bits, states[k])
    ensures MaskOk(bits, words, states[k].mask)
  {
    assert Stands(bits, words, states[k], ks[k]);
  }

  /** Adds every state of a child to the frontier. */
  method GrowAll(ghost bits: map<string, nat>, ghost words: nat, ghost ks: seq<Kept>, ghost more: seq<Kept>,
                 before: Slice<State>, found: Slice<State>)
      returns (states: Slice<State>)
    requires before.Valid() && found.Valid() && before.Backing() !! found.Backing()
    requires Shows(bits, words, before.Contents(), ks) && Shows(bits, words, found.Contents(), more)
    modifies before.Backing()
    ensures states.Valid() && (states.arr == before.arr || fresh(states.Backing()))
    ensures Shows(bits, words, states.Contents(), InsertAll(ks, more))
  {
    ghost var all := found.Contents();
    states := before;
    for k := 0 to found.len
      invariant states.Valid() && (states.arr == before.arr || fresh(states.Backing()))
      invariant found.Valid() && found.Contents() == all
      invariant Shows(bits, words, states.Contents(), InsertAll(ks, more[..k]))
    {
      assert found.arr[k] == all[k];
      ViewsFront(bits, words, all, more, k);
      states := Grow(bits, words, InsertAll(ks, more[..k]), states, found.arr[k]);
    }
    assert more[..found.len] == more;
  }

  /** Unites left with every found state and adds the results. */
  method CombineAll(ghost bits: map<string, nat>, ghost words: nat, ghost ks: seq<Kept>, ghost right: seq<Kept>,
                    before: Slice<State>, left: State, found: Slice<State>)
      returns (combined: Slice<State>)
    requires before.Valid() && found.Valid() && before.Backing() !! found.Backing()
    requires Shows(bits, words, before.Contents(), ks) && Shows(bits, words, found.Contents(), right)
    requires MaskOk(bits, words, left.mask)
    modifies before.Backing()
    ensures combined.Valid() && (combined.arr == before.arr || fresh(combined.Backing()))
    ensures Shows(bits, words, combined.Contents(), InsertAll(ks, Row(View(bits, left), right)))
  {
    ghost var all, l := found.Contents(), View(bits, left);
    combined := before;
    for k := 0 to found.len
      invariant combined.Valid() && (combined.arr == before.arr || fresh(combined.Backing()))
      invariant found.Valid() && found.Contents() == all
      invariant Shows(bits, words, combined.Contents(), InsertAll(ks, Row(l, right[..k])))
    {
      assert found.arr[k] == all[k];
      ViewsFront(bits, words, all, right, k);
      combined := CombineOne(bits, words, ks, right[..k + 1], combined, left, found.arr[k]);
    }
    assert right[..found.len] == right;
  }

  /** One pair of the product. */
  method CombineOne(ghost bits: map<string, nat>, ghost words: nat, ghost ks: seq<Kept>, ghost right: seq<Kept>,
                    before: Slice<State>, left: State, found: State)
      returns (combined: Slice<State>)
    requires right != [] && right[|right| - 1] == View(bits, found)
    requires MaskOk(bits, words, left.mask) && MaskOk(bits, words, found.mask) && before.Valid()
    requires Shows(bits, words, before.Contents(), InsertAll(ks, Row(View(bits, left), right[..|right| - 1])))
    modifies before.Backing()
    ensures combined.Valid() && (combined.arr == before.arr || fresh(combined.Backing()))
    ensures Shows(bits, words, combined.Contents(), InsertAll(ks, Row(View(bits, left), right)))
  {
    ghost var l, n := View(bits, left), |right| - 1;
    var mask := UnionMask(left.mask, found.mask);
    UnionIsSeen(bits, words, left.mask, found.mask, mask);
    var state := State(mask, Choice("", left.origin, found.origin));
    assert View(bits, state) == Unite(l, right[n]);
    assert Row(l, right)[..n] == Row(l, right[..n]) by { RowLength(l, right[..n]); }
    combined := Grow(bits, words, InsertAll(ks, Row(l, right[..n])), before, state);
  }
}
