/** Evaluation of linked expressions on the models one query can distinguish: the memoising evaluator, whose frontier
    slices are real arrays, one private to each result under construction. */
module MatrixEvaluator {
  import opened BitMasks
  import opened Slices
  import opened MatrixNodes
  import opened MatrixTraversal
  import opened MatrixFrontier

  class Evaluator {
    const modelBits: map<string, nat>
    const words: nat
    var memo: map<Node, Slice<State>>
    ghost var stored: set<object>  // the backing arrays of the memoised slices

    ghost predicate Valid()
      reads this, stored
    {
      && Registered(modelBits, words)
      && forall n | n in memo ::
           && memo[n].Valid() && memo[n].Backing() <= stored
           && Shows(modelBits, words, memo[n].Contents(), Traversal(modelBits.Keys, n))
    }

    /** Every memo entry stays, and new entries have new arrays. */
    twostate predicate Grown()
      reads this
    {
      && fresh(stored - old(stored)) && old(stored) <= stored
      && forall n | n in old(memo) :: n in memo && memo[n] == old(memo[n])
    }

    constructor (relevant: seq<string>)
      ensures Valid() && fresh(stored)
      ensures modelBits.Keys == set m | m in relevant
    {
      var bits: map<string, nat> := map[];
      for i := 0 to |relevant|
        invariant bits.Keys == set m | m in relevant[..i]
        invariant Registered(bits, (|bits| + 63) / 64)
      {
        if relevant[i] !in bits {
          ghost var before := bits;
          bits := bits[relevant[i] := |bits|];
          RegisterNext(before, relevant[i], bits);
        }
        assert relevant[..i + 1] == relevant[..i] + [relevant[i]];
      }
      assert relevant[..|relevant|] == relevant;
      modelBits := bits;
      words := (|bits| + 63) / 64;
      memo := map[];
      stored := {};
    }

    /** A mask with every relevant bit. */
    method FullMask() returns (mask: BitMask)
      requires Valid()
      ensures MaskOk(modelBits, words, mask) && Seen(modelBits, mask) == modelBits.Keys
    {
      mask := EmptyMask(words);
      for bit := 0 to |modelBits|
        invariant |mask| == words && (forall b: nat :: b in Bits(mask) <==> b < bit)
      {
        mask := SetBit(mask, bit);
      }
    }

    /** A slice still under construction: no memoised slice shares its backing array. */
    ghost predicate Private(s: Slice<State>)
      reads this
    {
      s.Valid() && s.Backing() !! stored
    }

    /** The states of an expression, exactly those of the traversal in its order. Only the memo changes: no array that
        existed before the call is written. */
    method Evaluate(root: Node) returns (states: Slice<State>)
      requires Valid()
      modifies this
      ensures Valid() && Grown()
      ensures states.Valid() && states.Backing() <= stored
      ensures Shows(modelBits, words, states.Contents(), Traversal(modelBits.Keys, root))
      ensures root in memo && memo[root] == states
      decreases root, 1
    {
      if root in memo {
        return memo[root];
      }
      match root {
        case Empty =>
          states := Nil();
        case Leaf(model) =>
          states := EvaluateLeaf(model);
        case Ref(_, ref) =>
          states := Evaluate(ref);
        case Or(children) =>
          states := EvaluateOr(children);
        case And(children) =>
          states := EvaluateAnd(children);
      }
      Remember(root, states);
    }

    /** Keeps the states of an expression for the rest of the query. */
    method Remember(root: Node, states: Slice<State>)
      requires Valid()
      requires states.Valid() && Shows(modelBits, words, states.Contents(), Traversal(modelBits.Keys, root))
      modifies this
      ensures Valid() && memo == old(memo)[root := states] && stored == old(stored) + states.Backing()
    {
      memo := memo[root := states];
      stored := stored + states.Backing();
    }

    method EvaluateLeaf(model: string) returns (states: Slice<State>)
      requires Valid()
      ensures states.Valid() && fresh(states.Backing())
      ensures Shows(modelBits, words, states.Contents(), [KeptOf(modelBits.Keys, {model})])
    {
      var mask := EmptyMask(words);
      if model in modelBits {
        mask := SetBit(mask, modelBits[model]);
      }
      LeafSeen(modelBits, words, model, mask);
      assert Models(Choice(model, Nothing, Nothing)) == {model} - {""};
      states := Single(modelBits, words, State(mask, Choice(model, Nothing, Nothing)));
    }

    method EvaluateOr(children: seq<Node>) returns (states: Slice<State>)
      requires Valid()
      modifies this
      ensures Valid() && Grown()
      ensures states.Valid() && fresh(states.Backing())
      ensures Shows(modelBits, words, states.Contents(), TraverseOr(modelBits.Keys, children))
      decreases children, 1
    {
      states := Nil();
      for i := 0 to |children|
        invariant Valid() && Grown()
        invariant Private(states) && fresh(states.Backing())
        invariant Shows(modelBits, words, states.Contents(), TraverseOr(modelBits.Keys, children[..i]))
      {
        assert children[..i + 1][..i] == children[..i];
        states := MergeAlternative(TraverseOr(modelBits.Keys, children[..i]), states, children[i]);
      }
      assert children[..|children|] == children;
    }

    /** Adds every state of a child to those of the alternatives before it. */
    method MergeAlternative(ghost ks: seq<Kept>, before: Slice<State>, child: Node) returns (states: Slice<State>)
      requires Valid() && Private(before) && Shows(modelBits, words, before.Contents(), ks)
      modifies this, before.Backing()
      ensures Valid() && Grown()
      ensures Private(states) && (states.arr == before.arr || fresh(states.Backing()))
      ensures Shows(modelBits, words, states.Contents(), InsertAll(ks, Traversal(modelBits.Keys, child)))
      decreases child, 2
    {
      var found := Evaluate(child);
      states := GrowAll(modelBits, words, ks, Traversal(modelBits.Keys, child), before, found);
    }

    method EvaluateAnd(children: seq<Node>) returns (states: Slice<State>)
      requires Valid()
      modifies this
      ensures Valid() && Grown()
      ensures states.Valid() && fresh(states.Backing())
      ensures Shows(modelBits, words, states.Contents(), TraverseAnd(modelBits.Keys, children))
      decreases children, 1
    {
      states := Single(modelBits, words, State(EmptyMask(words), Nothing));
      for i := 0 to |children|
        invariant Valid() && Grown()
        invariant Private(states) && fresh(states.Backing())
        invariant Shows(modelBits, words, states.Contents(), TraverseAnd(modelBits.Keys, children[..i]))
      {
        assert children[..i + 1][..i] == children[..i];
        states := CombineChild(TraverseAnd(modelBits.Keys, children[..i]), states, children[i]);
      }
      assert children[..|children|] == children;
    }

    /** Unites every state of the children before with every state of the next child. */
    method CombineChild(ghost ks: seq<Kept>, before: Slice<State>, child: Node) returns (combined: Slice<State>)
      requires Valid() && Private(before) && Shows(modelBits, words, before.Contents(), ks)
      modifies this
      ensures Valid() && Grown()
      ensures Private(combined) && fresh(combined.Backing())
      ensures Shows(modelBits, words, combined.Contents(), Product(ks, Traversal(modelBits.Keys, child)))
      decreases child, 3
    {
      ghost var all, right := before.Contents(), Traversal(modelBits.Keys, child);
      combined := Nil();
      for j := 0 to before.len
        invariant Valid() && Grown()
        invariant Private(combined) && fresh(combined.Backing())
        invariant Shows(modelBits, words, combined.Contents(), Product(ks[..j], right))
        invariant before.Valid() && before.Contents() == all
      {
        assert before.arr[j] == all[j];
        ViewsFront(modelBits, words, all, ks, j);
        combined := CombineState(Product(ks[..j], right), combined, before.arr[j], child);
      }
      assert ks[..before.len] == ks;
    }

    /** Unites one state of the children before with every state of the next child. */
    method CombineState(ghost ks: seq<Kept>, before: Slice<State>, left: State, child: Node)
        returns (combined: Slice<State>)
      requires Valid() && Private(before) && MaskOk(modelBits, words, left.mask)
      requires Shows(modelBits, words, before.Contents(), ks)
      modifies this, before.Backing()
      ensures Valid() && Grown()
      ensures Private(combined) && (combined.arr == before.arr || fresh(combined.Backing()))
      ensures Shows(modelBits, words, combined.Contents(),
                InsertAll(ks, Row(View(modelBits, left), Traversal(modelBits.Keys, child))))
      decreases child, 2
    {
      var found := Evaluate(child);
      combined := CombineAll(modelBits, words, ks, Traversal(modelBits.Keys, child), before, left, found);
    }
  }

  lemma RegisterNext(before: map<string, nat>, model: string, after: map<string, nat>)
    requires Registered(before, (|before| + 63) / 64) && model !in before
    requires after == before[model := |before|]
    ensures Registered(after, (|after| + 63) / 64)
  {
    assert |after| == |before| + 1;
    forall b: nat | b < |after| ensures Owned(after, b) {
      if b < |before| {
        assert Owned(before, b);
        var m :| m in before && before[m] == b;
        assert m in after && after[m] == b;
      } else {
        assert model in after && after[model] == b;
      }
    }
  }
}
