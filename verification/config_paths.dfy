/** Key lists and the order of keys. */
module ConfigPaths {
  import opened Options
  import opened ConfigMerge
  import opened ConfigSources

  // ----- which value of a repeated key counts

  /** A lookup finds the last entry with the key. */
  lemma {:induction false} FindIsLast(es: seq<Entry>, k: string, i: nat)
    requires i < |es| && es[i].key == k && forall j | i < j < |es| :: es[j].key != k
    ensures Find(es, k) == Some(es[i].value)
  {
    var n := |es| - 1;
    if i < n {
      assert es[n].key != k;
      FindIsLast(es[..n], k, i);
    }
  }

  // ----- the order of merged keys

  /** The places of the entries whose key dst lacks, in order. */
  ghost predicate Lacking(src: seq<Entry>, dst: seq<Entry>, at: seq<int>) {
    && (forall k, l | 0 <= k < l < |at| :: at[k] < at[l]) && (forall k | 0 <= k < |at| :: 0 <= at[k] < |src|)
    && forall i | 0 <= i < |src| :: i in at <==> forall j | 0 <= j < |dst| :: dst[j].key != src[i].key
  }

  /** The merged entries: the keys of a in their order, then the entries of b whose key a lacks, in theirs. */
  ghost predicate InOrder(a: seq<Entry>, b: seq<Entry>, c: seq<Entry>, at: seq<int>) {
    && |c| == |a| + |at| && (forall i | 0 <= i < |a| :: c[i].key == a[i].key)
    && Lacking(b, a, at) && forall k | 0 <= k < |at| :: c[|a| + k] == b[at[k]]
  }

  lemma {:induction false} MissingInOrder(src: seq<Entry>, dst: seq<Entry>) returns (at: seq<int>)
    ensures Lacking(src, dst, at) && |Missing(src, dst)| == |at|
    ensures forall k | 0 <= k < |at| :: Missing(src, dst)[k] == src[at[k]]
  {
    at := [];
    if src != [] {
      var n := |src| - 1;
      var before := MissingInOrder(src[..n], dst);
      at := if Find(dst, src[n].key) == None then before + [n] else before;
      LackingNext(src, dst, before, at);
      assert forall k | 0 <= k < |before| :: src[..n][before[k]] == src[before[k]];
    }
  }

  lemma LackingNext(src: seq<Entry>, dst: seq<Entry>, before: seq<int>, at: seq<int>)
    requires src != [] && Lacking(src[..|src| - 1], dst, before)
    requires at == if Find(dst, src[|src| - 1].key) == None then before + [|src| - 1] else before
    ensures Lacking(src, dst, at)
  {
    var n := |src| - 1;
    forall i | 0 <= i < |src| ensures i in at <==> forall j | 0 <= j < |dst| :: dst[j].key != src[i].key {
      assert i in at <==> i in before || (i == n && Find(dst, src[n].key) == None);
      if i < n { assert src[..n][i] == src[i]; }
    }
  }

  lemma {:induction false} SharedKeysStay(dst: seq<Entry>, src: seq<Entry>, path: string)
    requires MergeShared(dst, src, path).Some?
    ensures forall i | 0 <= i < |dst| :: MergeShared(dst, src, path).value[i].key == dst[i].key
  {
    if dst != [] {
      var n := |dst| - 1;
      SharedKeysStay(dst[..n], src, path);
      var es := MergeShared(dst[..n], src, path).value;
      assert MergeEntry(dst[n], src, path).Some?;
      assert MergeShared(dst, src, path).value == es + [MergeEntry(dst[n], src, path).value];
      assert forall i | 0 <= i < n :: es[i].key == dst[..n][i].key;
    }
  }

  lemma EntitiesInOrder(dst: seq<Entry>, src: seq<Entry>) returns (at: seq<int>)
    requires !Shared(src, dst)
    ensures InOrder(dst, src, dst + src, at)
  {
    at := seq(|src|, i => i);
    forall i | 0 <= i < |src| ensures i in at && forall j | 0 <= j < |dst| :: dst[j].key != src[i].key {
      assert at[i] == i && Find(dst, src[i].key) == None;
    }
  }

  lemma NodesInOrder(dst: seq<Entry>, src: seq<Entry>, path: string) returns (at: seq<int>)
    requires MergeNodes(dst, src, path).Some?
    ensures InOrder(dst, src, MergeNodes(dst, src, path).value, at)
  {
    var es := MergeShared(dst, src, path).value;
    SharedKeysStay(dst, src, path);
    at := MissingInOrder(src, es);
    forall i | 0 <= i < |src| ensures i in at <==> forall j | 0 <= j < |dst| :: dst[j].key != src[i].key {
      assert forall j | 0 <= j < |dst| :: es[j].key == dst[j].key;
    }
  }

  /** Merging mappings keeps the keys of the first in place and puts the other's behind them, identity paths or not. */
  lemma MergedInOrder(dst: seq<Entry>, src: seq<Entry>, path: string) returns (at: seq<int>)
    requires MergeChild(Mapping(dst), Mapping(src), path).Some?
    ensures MergeChild(Mapping(dst), Mapping(src), path).value.Mapping?
    ensures InOrder(dst, src, MergeChild(Mapping(dst), Mapping(src), path).value.entries, at)
  {
    if path in IDENTITY_PATHS {
      at := EntitiesInOrder(dst, src);
    } else {
      assert MergeValue(Mapping(dst), Mapping(src), path).Some? && MergeNodes(dst, src, path).Some?;
      at := NodesInOrder(dst, src, path);
    }
  }

  // ----- which lists of keys lead to entities

  /** A key as it is written in a configuration: not empty and without a dot. */
  predicate Plain(key: string) {
    key != "" && '.' !in key
  }

  predicate PlainPath(p: Path) {
    p != [] && forall i | 0 <= i < |p| :: Plain(p[i])
  }

  /** The mappings whose keys name models, groups and the like. */
  predicate HasEntities(p: Path) {
    || p == ["models"] || p == ["groups"] || p == ["profiles"] || p == ["selectors"] || p == ["peers"]
    || p == ["matrix"]
    || p == ["routing", "router", "settings", "groups"] || p == ["routing", "router", "settings", "matrix"]
    || p == ["routing", "router", "settings", "capacity", "pools"]
  }

  /** Every key with a dot before it. */
  function Behind(p: Path): string {
    if p == [] then "" else "." + p[0] + Behind(p[1..])
  }

  lemma {:induction false} DottedBehind(path: string, p: Path)
    requires path != ""
    ensures DottedPath(path, p) == path + Behind(p)
    decreases |p|
  {
    if p != [] {
      DottedBehind(path + "." + p[0], p[1..]);
      assert path + "." + p[0] + Behind(p[1..]) == path + ("." + p[0] + Behind(p[1..]));
    }
  }

  lemma DottedIsJoined(p: Path)
    requires PlainPath(p)
    ensures DottedPath("", p) == p[0] + Behind(p[1..])
  {
    DottedBehind(p[0], p[1..]);
  }

  /** Up to the first dot, a dotted path is its first key. */
  lemma FirstKey(a: string, x: string, b: string, y: string)
    requires Plain(a) && Plain(b) && a + x == b + y
    requires (x == "" || x[0] == '.') && (y == "" || y[0] == '.')
    ensures a == b && x == y
  {
    assert |a| < |a + x| ==> (a + x)[|a|] == '.';
    assert |b| < |b + y| ==> (b + y)[|b|] == '.';
    assert forall i | 0 <= i < |a| :: (a + x)[i] == a[i];
    assert forall i | 0 <= i < |b| :: (b + y)[i] == b[i];
    assert |a| == |b|;
    assert a == (a + x)[..|a|] && b == (b + y)[..|b|] && x == (a + x)[|a|..] && y == (b + y)[|b|..];
  }

  lemma {:induction false} BehindIsUnique(p: Path, q: Path)
    requires Behind(p) == Behind(q)
    requires (forall i | 0 <= i < |p| :: Plain(p[i])) && forall i | 0 <= i < |q| :: Plain(q[i])
    ensures p == q
  {
    if p != [] && q != [] {
      assert Behind(p)[1..] == p[0] + Behind(p[1..]) && Behind(q)[1..] == q[0] + Behind(q[1..]);
      FirstKey(p[0], Behind(p[1..]), q[0], Behind(q[1..]));
      BehindIsUnique(p[1..], q[1..]);
      assert p == [p[0]] + p[1..] && q == [q[0]] + q[1..];
    }
  }

  /** Paths of plain keys are told apart by their dotted form. */
  lemma DottedIsUnique(p: Path, q: Path)
    requires PlainPath(p) && PlainPath(q) && DottedPath("", p) == DottedPath("", q)
    ensures p == q
  {
    DottedIsJoined(p);
    DottedIsJoined(q);
    FirstKey(p[0], Behind(p[1..]), q[0], Behind(q[1..]));
    BehindIsUnique(p[1..], q[1..]);
    assert p == [p[0]] + p[1..] && q == [q[0]] + q[1..];
  }

  lemma BehindThree(a: string, b: string, c: string)
    ensures Behind([c]) == "." + c
    ensures Behind([b, c]) == "." + b + ("." + c)
    ensures Behind([a, b, c]) == "." + a + ("." + b + ("." + c))
  {
    assert [a, b, c][1..] == [b, c] && [b, c][1..] == [c] && [c][1..] == [];
    assert Behind([c]) == "." + c + Behind([]) == "." + c;
  }

  lemma LongPath(last: string)
    requires Plain(last)
    ensures PlainPath(["routing", "router", "settings", last])
    ensures DottedPath("", ["routing", "router", "settings", last]) == "routing.router.settings." + last
  {
    var p := ["routing", "router", "settings", last];
    DottedIsJoined(p);
    assert p[1..] == ["router", "settings", last];
    BehindThree("router", "settings", last);
    assert "." + "router" + ("." + "settings" + ("." + last)) == ".router.settings." + last;
    assert "routing" + (".router.settings." + last) == "routing.router.settings." + last;
  }

  lemma {:induction false} DottedNext(path: string, p: Path, k: string)
    requires DottedPath(path, p) != ""
    ensures DottedPath(path, p + [k]) == DottedPath(path, p) + "." + k
    decreases |p|
  {
    if p == [] {
      assert p + [k] == [k] && [k][1..] == [];
    } else {
      DottedNext(JoinPath(path, p[0]), p[1..], k);
      assert (p + [k])[1..] == p[1..] + [k];
    }
  }

  lemma PoolsPath()
    ensures PlainPath(["routing", "router", "settings", "capacity", "pools"])
    ensures DottedPath("", ["routing", "router", "settings", "capacity", "pools"])
            == "routing.router.settings.capacity.pools"
  {
    var p := ["routing", "router", "settings", "capacity"];
    LongPath("capacity");
    DottedNext("", p, "pools");
    assert p + ["pools"] == ["routing", "router", "settings", "capacity", "pools"];
    assert "routing.router.settings." + "capacity" + "." + "pools" == "routing.router.settings.capacity.pools";
    assert Plain("pools");
  }

  lemma ShortPath(key: string)
    requires Plain(key)
    ensures PlainPath([key]) && DottedPath("", [key]) == key
  {
    DottedIsJoined([key]);
    assert [key][1..] == [];
  }

  /** The list of keys an identity path is written from. */
  ghost function ListOf(path: string): Path {
    if path == "routing.router.settings.groups" then ["routing", "router", "settings", "groups"]
    else if path == "routing.router.settings.matrix" then ["routing", "router", "settings", "matrix"]
    else if path == "routing.router.settings.capacity.pools" then ["routing", "router", "settings", "capacity", "pools"]
    else [path]
  }

  lemma ListIsDotted(path: string)
    requires path in IDENTITY_PATHS
    ensures PlainPath(ListOf(path)) && HasEntities(ListOf(path)) && DottedPath("", ListOf(path)) == path
  {
    if path == "routing.router.settings.groups" {
      LongPath("groups");
      assert "routing.router.settings." + "groups" == path;
    } else if path == "routing.router.settings.matrix" {
      LongPath("matrix");
      assert "routing.router.settings." + "matrix" == path;
    } else if path == "routing.router.settings.capacity.pools" {
      PoolsPath();
    } else {
      ShortPath(path);
    }
  }

  lemma EntityIsIdentity(p: Path)
    requires HasEntities(p)
    ensures PlainPath(p) && DottedPath("", p) in IDENTITY_PATHS
  {
    if p == ["routing", "router", "settings", "groups"] {
      LongPath("groups");
      assert "routing.router.settings." + "groups" == "routing.router.settings.groups";
    } else if p == ["routing", "router", "settings", "matrix"] {
      LongPath("matrix");
      assert "routing.router.settings." + "matrix" == "routing.router.settings.matrix";
    } else if p == ["routing", "router", "settings", "capacity", "pools"] {
      PoolsPath();
    } else {
      ShortPath(p[0]);
    }
  }

  /** A path of plain keys is an identity path exactly if it is one of the lists. */
  lemma EntitiesByKeys(p: Path)
    requires PlainPath(p)
    ensures DottedPath("", p) in IDENTITY_PATHS <==> HasEntities(p)
  {
    if HasEntities(p) { EntityIsIdentity(p); }
    if DottedPath("", p) in IDENTITY_PATHS {
      ListIsDotted(DottedPath("", p));
      DottedIsUnique(p, ListOf(DottedPath("", p)));
    }
  }

  /** Two sources that define the same entity cannot be merged. */
  lemma SameEntityFails(docs: seq<Option<Yaml>>, i: nat, j: nat, p: Path, k: string)
    requires i < j < |docs| && HasEntities(p)
    requires AtIn(docs[i], p + [k]).Some? && AtIn(docs[j], p + [k]).Some?
    ensures MergeAll(docs) == None
  {
    EntityIsIdentity(p);
    AtLonger(docs[i].value, p, k);
    AtLonger(docs[j].value, p, k);
    if MergeAll(docs).Some? { EntitiesAreDisjoint(docs, i, j, p, k); }
  }
}
