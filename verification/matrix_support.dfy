/** The program-wide model registry and the models each set can mention, collected with a memo and stored as one bit
    mask a set. */
module MatrixSupport {
  import opened BitMasks
  import opened MatrixNodes
  import opened MatrixFrontier
  import opened MatrixEvaluator
  import opened MatrixSolver

  class Collector {
    var memo: map<Node, set<string>>

    ghost predicate Valid()
      reads this
    {
      forall n | n in memo :: memo[n] == Mentioned(n)
    }

    constructor ()
      ensures Valid()
    {
      memo := map[];
    }

    /** Every model reachable through AND, OR and references. */
    method Collect(n: Node) returns (models: set<string>)
      requires Valid()
      modifies this
      ensures Valid() && models == Mentioned(n)
      decreases n, 1
    {
      if n in memo {
        return memo[n];
      }
      match n {
        case Leaf(model) => models := {model};
        case Ref(_, ref) => models := Collect(ref);
        case Empty => models := {};
        case And(children) => models := CollectAll(children);
        case Or(children) => models := CollectAll(children);
      }
      memo := memo[n := models];
    }

    method CollectAll(children: seq<Node>) returns (models: set<string>)
      requires Valid()
      modifies this
      ensures Valid() && models == MentionedIn(children)
      decreases children, 0
    {
      models := {};
      for i := 0 to |children|
        invariant Valid() && models == MentionedIn(children[..i])
      {
        assert children[..i + 1][..i] == children[..i];
        var found := Collect(children[i]);
        models := models + found;
      }
      assert children[..|children|] == children;
    }
  }

  function WordsFor(bits: map<string, nat>): nat {
    (|bits| + 63) / 64
  }

  /** Gives every model of a set that has none yet the next free bit, in any order. */
  method Register(models: set<string>, before: map<string, nat>) returns (bits: map<string, nat>)
    requires Registered(before, WordsFor(before))
    ensures Registered(bits, WordsFor(bits)) && bits.Keys == before.Keys + models
  {
    bits := before;
    var todo := models;
    while todo != {}
      invariant bits.Keys + todo == before.Keys + models
      invariant Registered(bits, WordsFor(bits))
      decreases todo
    {
      var model :| model in todo;
      todo := todo - {model};
      ghost var keys := bits.Keys;
      bits := RegisterOne(model, bits);
      assert bits.Keys == keys + {model};
    }
  }

  function RegisterOne(model: string, bits: map<string, nat>): (r: map<string, nat>)
    requires Registered(bits, WordsFor(bits))
    ensures Registered(r, WordsFor(r)) && r.Keys == bits.Keys + {model}
  {
    if model in bits then bits
    else
      RegisterNext(bits, model, bits[model := |bits|]);
      bits[model := |bits|]
  }

  /** The bits of a set of registered models, set in any order. */
  method SupportMask(models: set<string>, bits: map<string, nat>, words: nat) returns (support: BitMask)
    requires Registered(bits, words) && models <= bits.Keys
    ensures |support| == words
    ensures forall m | m in bits :: bits[m] in Bits(support) <==> m in models
  {
    support := EmptyMask(words);
    var todo := models;
    while todo != {}
      invariant todo <= models && |support| == words
      invariant forall m | m in bits :: bits[m] in Bits(support) <==> m in models - todo
      decreases todo
    {
      var model :| model in todo;
      support := SetBit(support, bits[model]);
      todo := todo - {model};
    }
  }

  /** A named, linked set before its support is known. */
  datatype NamedRoot = NamedRoot(name: string, dsl: string, root: Node)

  /** The models of one set, registered behind the earlier ones. */
  method CollectSet(collector: Collector, root: Node, before: map<string, nat>)
      returns (models: set<string>, bits: map<string, nat>)
    requires collector.Valid() && Registered(before, WordsFor(before))
    modifies collector
    ensures collector.Valid() && Registered(bits, WordsFor(bits))
    ensures models == Mentioned(root) && models <= bits.Keys && before.Keys <= bits.Keys
  {
    models := collector.Collect(root);
    bits := Register(models, before);
  }

  /** Each root's models are collected and registered. */
  ghost predicate Covered(sets: seq<NamedRoot>, setModels: seq<set<string>>, bits: map<string, nat>) {
    && |setModels| <= |sets| && Registered(bits, WordsFor(bits))
    && forall k | 0 <= k < |setModels| :: setModels[k] == Mentioned(sets[k].root) && setModels[k] <= bits.Keys
  }

  lemma CoveredNext(sets: seq<NamedRoot>, setModels: seq<set<string>>, before: map<string, nat>,
                    models: set<string>, bits: map<string, nat>)
    requires Covered(sets, setModels, before) && |setModels| < |sets| && before.Keys <= bits.Keys
    requires models == Mentioned(sets[|setModels|].root) && models <= bits.Keys && Registered(bits, WordsFor(bits))
    ensures Covered(sets, setModels + [models], bits)
  {
    var all := setModels + [models];
    forall k | 0 <= k < |all| ensures all[k] == Mentioned(sets[k].root) && all[k] <= bits.Keys {
      if k < |setModels| { assert all[k] == setModels[k] <= before.Keys; }
    }
  }

  /** The models of every set, all registered. */
  method CollectSets(sets: seq<NamedRoot>) returns (setModels: seq<set<string>>, bits: map<string, nat>)
    ensures Covered(sets, setModels, bits) && |setModels| == |sets|
  {
    var collector := new Collector();
    bits, setModels := map[], [];
    for i := 0 to |sets|
      invariant fresh(collector) && collector.Valid() && |setModels| == i
      invariant Covered(sets, setModels, bits)
    {
      var models, more := CollectSet(collector, sets[i].root, bits);
      CoveredNext(sets, setModels, bits, models, more);
      bits := more;
      setModels := setModels + [models];
    }
  }

  /** The mask has exactly the bits of the models. */
  ghost predicate Supports(support: BitMask, models: set<string>, bits: map<string, nat>, words: nat) {
    |support| == words && forall m | m in bits :: bits[m] in Bits(support) <==> m in models
  }

  /** The program has the sets, each with exactly the bits of the models it mentions. */
  ghost predicate Supported(sets: seq<NamedRoot>, p: Program) {
    && p.Valid() && |p.sets| == |sets|
    && (forall i | 0 <= i < |sets| ::
          NamedRoot(p.sets[i].name, p.sets[i].dsl, p.sets[i].root) == sets[i])
    && (forall i, m | 0 <= i < |sets| ::
          (m in p.modelBits && p.modelBits[m] in Bits(p.sets[i].support)) <==> m in Mentioned(sets[i].root))
  }

  method ComputeSupport(sets: seq<NamedRoot>) returns (p: Program)
    ensures Supported(sets, p)
  {
    var setModels, bits := CollectSets(sets);
    var words := WordsFor(bits);
    var compiled: seq<CompiledSet> := [];
    for i := 0 to |sets|
      invariant |compiled| == i
      invariant forall k | 0 <= k < i :: NamedRoot(compiled[k].name, compiled[k].dsl, compiled[k].root) == sets[k]
      invariant forall k | 0 <= k < i :: Supports(compiled[k].support, setModels[k], bits, words)
    {
      var support := SupportMask(setModels[i], bits, words);
      compiled := compiled + [CompiledSet(sets[i].name, sets[i].dsl, sets[i].root, support)];
    }
    p := Program(compiled, bits, words);
    forall i, m | 0 <= i < |sets|
      ensures (m in bits && bits[m] in Bits(compiled[i].support)) <==> m in Mentioned(sets[i].root)
    {
      assert Supports(compiled[i].support, setModels[i], bits, words);
    }
  }
}
