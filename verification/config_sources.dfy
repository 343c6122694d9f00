/** The fold over all configuration sources. */
module ConfigSources {
  import opened Options
  import opened ConfigMerge

  /** The fold over the sources; an empty source is skipped. */
  function MergeAll(docs: seq<Option<Yaml>>): Option<Option<Yaml>> {
    if docs == [] then Some(None)
    else
      var n := |docs| - 1;
      match MergeAll(docs[..n])
      case None => None
      case Some(merged) => MergeNext(merged, docs[n])
  }

  function MergeNext(merged: Option<Yaml>, doc: Option<Yaml>): Option<Option<Yaml>> {
    if doc == None then Some(merged)
    else if merged == None then Some(doc)
    else
      match MergeValue(merged.value, doc.value, "")
      case None => None
      case Some(r) => Some(Some(r))
  }

  method LoadSources(docs: seq<Option<Yaml>>) returns (r: Option<Option<Yaml>>)
    ensures r == MergeAll(docs)
  {
    var merged: Option<Yaml> := None;
    for i := 0 to |docs|
      invariant MergeAll(docs[..i]) == Some(merged)
    {
      assert docs[..i + 1][..i] == docs[..i];
      match (docs[i], merged) {
        case (None, _) =>
        case (_, None) => merged := docs[i];
        case (Some(doc), Some(m)) =>
          merged := MergeByKind(m, doc, "");
          if merged == None {
            MergeAllFails(docs, i + 1);
            return None;
          }
      }
    }
    assert docs[..|docs|] == docs;
    r := Some(merged);
  }

  lemma {:induction false} MergeAllFails(docs: seq<Option<Yaml>>, i: nat)
    requires i <= |docs| && MergeAll(docs[..i]) == None
    ensures MergeAll(docs) == None
  {
    if i < |docs| {
      assert docs[..|docs| - 1][..i] == docs[..i];
      MergeAllFails(docs[..|docs| - 1], i);
    } else {
      assert docs[..i] == docs;
    }
  }

  // ----- what the result has at a path

  /** What an optional document has at a path. */
  function AtIn(doc: Option<Yaml>, p: Path): Option<Yaml> {
    if doc == None then None else At(doc.value, p)
  }

  lemma NextAgrees(merged: Option<Yaml>, doc: Option<Yaml>, p: Path)
    requires MergeNext(merged, doc).Some?
    ensures Agrees(AtIn(merged, p), AtIn(doc, p), AtIn(MergeNext(merged, doc).value, p))
  {
    if merged.Some? && doc.Some? {
      assert "" !in IDENTITY_PATHS;
      MergeAgrees(merged.value, doc.value, "", p);
    }
  }

  /** The items of a sequence; anything else has none. */
  function ItemsOf(y: Option<Yaml>): seq<Yaml> {
    if y.Some? && y.value.Sequence? then y.value.items else []
  }

  /** The items of every sequence the sources have at a path, in source order. */
  function ItemsAt(docs: seq<Option<Yaml>>, p: Path): seq<Yaml> {
    if docs == [] then []
    else
      var n := |docs| - 1;
      ItemsAt(docs[..n], p) + ItemsOf(AtIn(docs[n], p))
  }

  /** No source loses a value: each scalar that is not null stays, at its path. */
  lemma {:induction false} ScalarsSurvive(docs: seq<Option<Yaml>>, i: nat, p: Path)
    requires MergeAll(docs).Some? && i < |docs|
    requires AtIn(docs[i], p).Some? && AtIn(docs[i], p).value.Scalar? && !IsNull(AtIn(docs[i], p).value)
    ensures AtIn(MergeAll(docs).value, p) == AtIn(docs[i], p)
  {
    var n := |docs| - 1;
    NextAgrees(MergeAll(docs[..n]).value, docs[n], p);
    if i < n { ScalarsSurvive(docs[..n], i, p); }
  }

  /** A path is in the result exactly when it is in some source. */
  lemma {:induction false} PathsAreTheSources(docs: seq<Option<Yaml>>, p: Path)
    requires MergeAll(docs).Some?
    ensures AtIn(MergeAll(docs).value, p).Some? <==> exists i :: 0 <= i < |docs| && AtIn(docs[i], p).Some?
  {
    if docs != [] {
      var n := |docs| - 1;
      NextAgrees(MergeAll(docs[..n]).value, docs[n], p);
      PathsAreTheSources(docs[..n], p);
      if i :| 0 <= i < n && AtIn(docs[..n][i], p).Some? {
        assert AtIn(docs[i], p).Some?;
      }
      if i :| 0 <= i < |docs| && AtIn(docs[i], p).Some? {
        assert i == n || AtIn(docs[..n][i], p).Some?;
      }
    }
  }

  lemma AgreedItems(x: Option<Yaml>, y: Option<Yaml>, z: Option<Yaml>)
    requires Agrees(x, y, z)
    ensures ItemsOf(z) == ItemsOf(x) + ItemsOf(y)
  {
    assert [] + ItemsOf(y) == ItemsOf(y) && ItemsOf(x) + [] == ItemsOf(x);
  }

  /** A sequence in the result is the sources' sequences one behind the other, and no sequence is lost. */
  lemma {:induction false} SequencesConcatenate(docs: seq<Option<Yaml>>, p: Path)
    requires MergeAll(docs).Some?
    ensures ItemsOf(AtIn(MergeAll(docs).value, p)) == ItemsAt(docs, p)
  {
    if docs != [] {
      var n := |docs| - 1;
      var merged := MergeAll(docs[..n]).value;
      NextAgrees(merged, docs[n], p);
      AgreedItems(AtIn(merged, p), AtIn(docs[n], p), AtIn(MergeAll(docs).value, p));
      SequencesConcatenate(docs[..n], p);
    }
  }

  // ----- when the sources cannot be merged

  /** No mapping repeats a key. */
  ghost predicate DistinctKeys(y: Yaml) {
    match y
    case Mapping(es) => DistinctEntries(es)
    case _ => true
  }

  ghost predicate DistinctEntries(es: seq<Entry>) {
    && (forall i, j | 0 <= i < j < |es| :: es[i].key != es[j].key)
    && forall i | 0 <= i < |es| :: DistinctKeys(es[i].value)
  }

  lemma {:induction false} FoundIsDistinct(es: seq<Entry>, k: string)
    requires DistinctEntries(es) && Find(es, k).Some?
    ensures DistinctKeys(Find(es, k).value)
  {
    if es[|es| - 1].key != k { FoundIsDistinct(es[..|es| - 1], k); }
  }

  lemma JoinIsDistinct(a: seq<Entry>, b: seq<Entry>)
    requires DistinctEntries(a) && DistinctEntries(b)
    requires forall j | 0 <= j < |b| :: Find(a, b[j].key) == None
    ensures DistinctEntries(a + b)
  {
    var es := a + b;
    forall i, j | 0 <= i < j < |es| ensures es[i].key != es[j].key {
      if i < |a| <= j { assert a[i].key == es[i].key; }
    }
  }

  lemma OneMoreIsDistinct(es: seq<Entry>, e: Entry)
    requires DistinctEntries(es) && DistinctKeys(e.value) && Find(es, e.key) == None
    ensures DistinctEntries(es + [e])
  {
    JoinIsDistinct(es, [e]);
  }

  lemma {:induction false} MissingIsDistinct(src: seq<Entry>, dst: seq<Entry>)
    requires DistinctEntries(src)
    ensures DistinctEntries(Missing(src, dst))
    ensures forall j | 0 <= j < |Missing(src, dst)| :: Find(dst, Missing(src, dst)[j].key) == None
  {
    if src != [] {
      var n := |src| - 1;
      var m := Missing(src[..n], dst);
      MissingIsDistinct(src[..n], dst);
      FindMissing(src[..n], dst, src[n].key);
      if Find(dst, src[n].key) == None {
        OneMoreIsDistinct(m, src[n]);
        assert Missing(src, dst) == m + [src[n]];
      } else {
        assert Missing(src, dst) == m;
      }
    }
  }

  /** Merging keeps the keys of every mapping distinct. */
  lemma {:induction false} MergeIsDistinct(dst: Yaml, src: Yaml, path: string)
    requires DistinctKeys(dst) && DistinctKeys(src) && MergeChild(dst, src, path).Some?
    ensures DistinctKeys(MergeChild(dst, src, path).value)
    decreases dst, 1
  {
    if dst.Mapping? && src.Mapping? {
      if path in IDENTITY_PATHS {
        JoinIsDistinct(dst.entries, src.entries);
      } else {
        assert MergeValue(dst, src, path).Some? && MergeNodes(dst.entries, src.entries, path).Some?;
        var es := MergeShared(dst.entries, src.entries, path).value;
        SharedIsDistinct(dst.entries, src.entries, path);
        MissingIsDistinct(src.entries, es);
        JoinIsDistinct(es, Missing(src.entries, es));
      }
    }
  }

  lemma {:induction false} SharedIsDistinct(dst: seq<Entry>, src: seq<Entry>, path: string)
    requires DistinctEntries(dst) && DistinctEntries(src) && MergeShared(dst, src, path).Some?
    ensures DistinctEntries(MergeShared(dst, src, path).value)
    ensures forall i | 0 <= i < |dst| :: MergeShared(dst, src, path).value[i].key == dst[i].key
    decreases dst, 0
  {
    if dst != [] {
      var n := |dst| - 1;
      var e := dst[n];
      SharedIsDistinct(dst[..n], src, path);
      assert MergeEntry(e, src, path).Some?;
      if Find(src, e.key).Some? {
        FoundIsDistinct(src, e.key);
        MergeIsDistinct(e.value, Find(src, e.key).value, JoinPath(path, e.key));
      }
      var es := MergeShared(dst[..n], src, path).value;
      assert MergeShared(dst, src, path).value == es + [MergeEntry(e, src, path).value];
      assert forall i | 0 <= i < n :: es[i].key == dst[..n][i].key;
    }
  }

  /** Each source has distinct keys. */
  ghost predicate AllDistinct(docs: seq<Option<Yaml>>) {
    forall i | 0 <= i < |docs| && docs[i].Some? :: DistinctKeys(docs[i].value)
  }

  lemma {:induction false} ResultIsDistinct(docs: seq<Option<Yaml>>)
    requires AllDistinct(docs) && MergeAll(docs).Some?
    ensures MergeAll(docs).value.Some? ==> DistinctKeys(MergeAll(docs).value.value)
  {
    if docs != [] {
      var n := |docs| - 1;
      ResultIsDistinct(docs[..n]);
      var merged := MergeAll(docs[..n]).value;
      if merged.Some? && docs[n].Some? { MergeIsDistinct(merged.value, docs[n].value, ""); }
    }
  }

  /** Without repeated keys only one node stands at a path. */
  lemma {:induction false} StandsIffAt(y: Yaml, p: Path, d: Yaml)
    ensures At(y, p) == Some(d) ==> StandsAt(y, p, d)
    ensures DistinctKeys(y) && StandsAt(y, p, d) ==> At(y, p) == Some(d)
    decreases |p|
  {
    if p != [] && y.Mapping? {
      var es := y.entries;
      if Find(es, p[0]).Some? {
        var i := FoundIndex(es, p[0]);
        StandsIffAt(es[i].value, p[1..], d);
        if DistinctKeys(y) {
          assert DistinctEntries(es);
          assert forall j | 0 <= j < |es| && es[j].key == p[0] :: j == i;
        }
      }
    }
  }

  function FoundIndex(es: seq<Entry>, k: string): (i: nat)
    requires Find(es, k).Some?
    ensures i < |es| && es[i].key == k && Find(es, k) == Some(es[i].value)
  {
    if es[|es| - 1].key == k then |es| - 1 else FoundIndex(es[..|es| - 1], k)
  }

  /** What two nodes that do not clash become clashes with a third node exactly if one of them does. */
  lemma ClashIsShared(x: Option<Yaml>, d: Option<Yaml>, z: Option<Yaml>, y: Option<Yaml>, path: string)
    requires Agrees(x, d, z) && !Clash(x, d, path)
    ensures Clash(z, y, path) <==> Clash(x, y, path) || Clash(d, y, path)
  {
    if x.Some? && d.Some? && y.Some? && x.value.Mapping? && d.value.Mapping? && y.value.Mapping? {
      SharedIsUnion(y.value.entries, x.value.entries, d.value.entries, z.value.entries);
    }
  }

  lemma SharedIsUnion(y: seq<Entry>, x: seq<Entry>, d: seq<Entry>, z: seq<Entry>)
    requires SameKeys(x, d, z)
    ensures Shared(y, z) <==> Shared(y, x) || Shared(y, d)
  {
    forall i | 0 <= i < |y|
      ensures Find(z, y[i].key).Some? <==> Find(x, y[i].key).Some? || Find(d, y[i].key).Some?
    {
    }
  }

  /** Two optional documents clash at a path. */
  ghost predicate ClashIn(x: Option<Yaml>, y: Option<Yaml>, p: Path) {
    Clash(AtIn(x, p), AtIn(y, p), DottedPath("", p))
  }

  /** One turn of the fold fails exactly when the two sides clash at some path. */
  lemma NextFailsIffClash(merged: Option<Yaml>, doc: Option<Yaml>)
    requires merged.Some? ==> DistinctKeys(merged.value)
    ensures MergeNext(merged, doc) == None <==> exists p :: ClashIn(merged, doc, p)
  {
    if merged.Some? && doc.Some? {
      var m, y := merged.value, doc.value;
      assert "" !in IDENTITY_PATHS;
      if MergeNext(merged, doc) == None {
        var p, d := FailureHasClash(m, y, "");
        StandsIffAt(m, p, d);
        assert ClashIn(merged, doc, p);
      }
      if p :| ClashIn(merged, doc, p) { NextFails(m, y, p); }
    }
  }

  lemma NextFails(m: Yaml, y: Yaml, p: Path)
    requires ClashIn(Some(m), Some(y), p)
    ensures MergeNext(Some(m), Some(y)) == None
  {
    assert "" !in IDENTITY_PATHS;
    var d := At(m, p).value;
    StandsIffAt(m, p, d);
    ClashFails(m, y, "", p, d);
  }

  /** The merged sources clash with one more exactly if one of them does. */
  lemma {:induction false} ClashComesFromSource(docs: seq<Option<Yaml>>, y: Option<Yaml>, p: Path)
    requires MergeAll(docs).Some?
    ensures ClashIn(MergeAll(docs).value, y, p) <==> exists i :: 0 <= i < |docs| && ClashIn(docs[i], y, p)
  {
    if docs != [] {
      var n := |docs| - 1;
      var merged := MergeAll(docs[..n]).value;
      ClashComesFromSource(docs[..n], y, p);
      NextAgrees(merged, docs[n], p);
      if ClashIn(merged, docs[n], p) { NextFails(merged.value, docs[n].value, p); }
      ClashIsShared(AtIn(merged, p), AtIn(docs[n], p), AtIn(MergeAll(docs).value, p), AtIn(y, p), DottedPath("", p));
      if i :| 0 <= i < n && ClashIn(docs[..n][i], y, p) { assert ClashIn(docs[i], y, p); }
      if i :| 0 <= i < |docs| && ClashIn(docs[i], y, p) { assert i == n || ClashIn(docs[..n][i], y, p); }
    }
  }

  /** Two sources that clash make the merge fail, repeated keys or not. */
  lemma {:induction false} ClashingSourcesFail(docs: seq<Option<Yaml>>, i: nat, j: nat, p: Path)
    requires i < j < |docs| && ClashIn(docs[i], docs[j], p)
    ensures MergeAll(docs) == None
  {
    var n := |docs| - 1;
    if j < n {
      ClashingSourcesFail(docs[..n], i, j, p);
    } else if MergeAll(docs[..n]).Some? {
      assert ClashIn(docs[..n][i], docs[n], p);
      ClashComesFromSource(docs[..n], docs[n], p);
      NextFails(MergeAll(docs[..n]).value.value, docs[n].value, p);
    }
  }

  /** A failed merge of sources with distinct keys has two that clash. */
  lemma {:induction false} FailureHasClashingSources(docs: seq<Option<Yaml>>) returns (i: nat, j: nat, p: Path)
    requires AllDistinct(docs) && MergeAll(docs) == None
    ensures i < j < |docs| && ClashIn(docs[i], docs[j], p)
  {
    var n := |docs| - 1;
    if MergeAll(docs[..n]) == None {
      i, j, p := FailureHasClashingSources(docs[..n]);
    } else {
      var merged := MergeAll(docs[..n]).value;
      ResultIsDistinct(docs[..n]);
      NextFailsIffClash(merged, docs[n]);
      p :| ClashIn(merged, docs[n], p);
      ClashComesFromSource(docs[..n], docs[n], p);
      i :| 0 <= i < n && ClashIn(docs[..n][i], docs[n], p);
      j := n;
    }
  }

  /** Any number of sources with distinct keys fail to merge exactly when two of them clash at some path. */
  lemma SourcesFailIffClash(docs: seq<Option<Yaml>>)
    requires AllDistinct(docs)
    ensures MergeAll(docs) == None <==> exists i, j, p :: 0 <= i < j < |docs| && ClashIn(docs[i], docs[j], p)
  {
    if MergeAll(docs) == None {
      var i, j, p := FailureHasClashingSources(docs);
    }
    if i, j, p :| 0 <= i < j < |docs| && ClashIn(docs[i], docs[j], p) {
      ClashingSourcesFail(docs, i, j, p);
    }
  }

  /** Sources that merge never define the same entity twice: under an identity path their keys are disjoint. */
  lemma EntitiesAreDisjoint(docs: seq<Option<Yaml>>, i: nat, j: nat, p: Path, k: string)
    requires MergeAll(docs).Some? && i < j < |docs| && DottedPath("", p) in IDENTITY_PATHS
    requires AtIn(docs[i], p).Some? && AtIn(docs[j], p).Some?
    ensures AtIn(docs[i], p).value.Mapping? && AtIn(docs[j], p).value.Mapping?
    ensures AtIn(docs[i], p + [k]) == None || AtIn(docs[j], p + [k]) == None
  {
    if !ClashIn(docs[i], docs[j], p) {
      AtLonger(docs[i].value, p, k);
      AtLonger(docs[j].value, p, k);
      DisjointKeys(AtIn(docs[i], p).value, AtIn(docs[j], p).value, DottedPath("", p), k);
    } else {
      ClashingSourcesFail(docs, i, j, p);
    }
  }

  lemma DisjointKeys(x: Yaml, y: Yaml, path: string, k: string)
    requires path in IDENTITY_PATHS && !Clash(Some(x), Some(y), path)
    ensures x.Mapping? && y.Mapping? && (At(x, [k]) == None || At(y, [k]) == None)
  {
    if Find(x.entries, k).Some? {
      var i := FoundIndex(x.entries, k);
      if Find(y.entries, x.entries[i].key).Some? { KeyIsShared(y.entries, x.entries, i); }
    }
  }

  lemma {:induction false} AtLonger(y: Yaml, p: Path, k: string)
    ensures At(y, p + [k]) == if At(y, p).Some? then At(At(y, p).value, [k]) else None
    decreases |p|
  {
    if p == [] {
      assert p + [k] == [k];
    } else {
      assert (p + [k])[1..] == p[1..] + [k];
      if y.Mapping? && Find(y.entries, p[0]).Some? { AtLonger(Find(y.entries, p[0]).value, p[1..], k); }
    }
  }
}
