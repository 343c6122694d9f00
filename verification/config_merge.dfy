/** Merging configuration documents. */
module ConfigMerge {
  import opened Options

  /** A parsed document without anchors; Unset is a node of no kind. */
  datatype Yaml =
    | Unset
    | Scalar(tag: string, value: string)
    | Sequence(items: seq<Yaml>)
    | Mapping(entries: seq<Entry>)

  datatype Entry = Entry(key: string, value: Yaml)

  /** The dotted paths whose children name entities. */
  const IDENTITY_PATHS: set<string> := {
    "models", "groups", "profiles", "selectors", "peers", "matrix",
    "routing.router.settings.groups", "routing.router.settings.matrix",
    "routing.router.settings.capacity.pools"}

  predicate IsNullScalar(y: Yaml) {
    y.Scalar? && (y.tag == "!!null" || y.tag == "") && y.value == ""
  }

  predicate IsNull(y: Yaml) {
    y.Unset? || IsNullScalar(y)
  }

  function JoinPath(parent: string, key: string): string {
    if parent == "" then key else parent + "." + key
  }

  /** indexMapping: the value of a key, the last one winning. */
  function Find(es: seq<Entry>, key: string): (r: Option<Yaml>)
    ensures r.Some? <==> exists i :: 0 <= i < |es| && es[i].key == key
  {
    if es == [] then None
    else if es[|es| - 1].key == key then Some(es[|es| - 1].value)
    else
      assert forall i | 0 <= i < |es| - 1 :: es[..|es| - 1][i] == es[i];
      Find(es[..|es| - 1], key)
  }

  predicate Shared(a: seq<Entry>, b: seq<Entry>) {
    exists i :: 0 <= i < |a| && Find(b, a[i].key).Some?
  }

  // ----- what the merge computes

  /** mergeIdentityMap */
  function MergeIdentityMap(dst: Yaml, src: Yaml): Option<Yaml> {
    if dst.Mapping? && src.Mapping? && !Shared(src.entries, dst.entries)
    then Some(Mapping(dst.entries + src.entries)) else None
  }

  /** mergeValue */
  function MergeValue(dst: Yaml, src: Yaml, path: string): Option<Yaml>
    decreases dst, 1
  {
    if dst.Mapping? && src.Mapping? then
      match MergeNodes(dst.entries, src.entries, path)
      case None => None
      case Some(es) => Some(Mapping(es))
    else if dst.Sequence? && src.Sequence? then Some(Sequence(dst.items + src.items))
    else if dst.Scalar? && src.Scalar? then
      if IsNullScalar(dst) then Some(src)
      else if IsNullScalar(src) || dst == src then Some(dst)
      else None
    else if IsNull(dst) then Some(src)
    else if IsNull(src) then Some(dst)
    else None
  }

  /** A value both sides have, at its path. */
  function MergeChild(dst: Yaml, src: Yaml, path: string): Option<Yaml>
    decreases dst, 2
  {
    if path in IDENTITY_PATHS then MergeIdentityMap(dst, src) else MergeValue(dst, src, path)
  }

  /** mergeNodes: shared keys merged in place, then the keys only the source has. */
  function MergeNodes(dst: seq<Entry>, src: seq<Entry>, path: string): Option<seq<Entry>>
    decreases dst, 1
  {
    match MergeShared(dst, src, path)
    case None => None
    case Some(es) => Some(es + Missing(src, es))
  }

  function MergeShared(dst: seq<Entry>, src: seq<Entry>, path: string): (r: Option<seq<Entry>>)
    ensures r.Some? ==> |r.value| == |dst|
    decreases dst, 0
  {
    if dst == [] then Some([])
    else
      var n := |dst| - 1;
      match (MergeShared(dst[..n], src, path), MergeEntry(dst[n], src, path))
      case (Some(es), Some(e)) => Some(es + [e])
      case _ => None
  }

  function MergeEntry(e: Entry, src: seq<Entry>, path: string): Option<Entry>
    decreases e, 0
  {
    match Find(src, e.key)
    case None => Some(e)
    case Some(v) =>
      match MergeChild(e.value, v, JoinPath(path, e.key))
      case None => None
      case Some(r) => Some(Entry(e.key, r))
  }

  /** The source entries whose key the destination lacks, in order. */
  function Missing(src: seq<Entry>, dst: seq<Entry>): seq<Entry> {
    if src == [] then []
    else
      var n := |src| - 1;
      Missing(src[..n], dst) + if Find(dst, src[n].key).Some? then [] else [src[n]]
  }

  // ----- the merge, step by step

  /** mergeNodes: a first pass over the shared keys, a second over the keys only the source has. */
  method MergeMappings(dst: seq<Entry>, src: seq<Entry>, path: string) returns (r: Option<seq<Entry>>)
    ensures r == MergeNodes(dst, src, path)
    decreases dst, 2
  {
    r := MergeSharedKeys(dst, src, path);
    if r.Some? {
      var es := AppendMissing(r.value, src);
      r := Some(es);
    }
  }

  method MergeSharedKeys(dst0: seq<Entry>, src: seq<Entry>, path: string) returns (r: Option<seq<Entry>>)
    ensures r == MergeShared(dst0, src, path)
    decreases dst0, 1
  {
    var dst := dst0;
    for i := 0 to |dst0|
      invariant |dst| == |dst0| && dst[i..] == dst0[i..]
      invariant MergeShared(dst0[..i], src, path) == Some(dst[..i])
    {
      assert dst[i..][0] == dst0[i..][0] && dst0[..i + 1][..i] == dst0[..i];
      var e := dst0[i];
      match Find(src, e.key) {
        case None =>
        case Some(srcVal) =>
          var merged := MergeAtPath(e.value, srcVal, JoinPath(path, e.key));
          if merged == None {
            SharedFails(dst0, i + 1, src, path);
            return None;
          }
          dst := dst[i := Entry(e.key, merged.value)];
      }
      assert dst[..i + 1] == dst[..i] + [dst[i]] && dst[i + 1..] == dst0[i + 1..];
    }
    assert dst0[..|dst0|] == dst0 && dst[..|dst|] == dst;
    r := Some(dst);
  }

  method AppendMissing(shared: seq<Entry>, src: seq<Entry>) returns (dst: seq<Entry>)
    ensures dst == shared + Missing(src, shared)
  {
    dst := shared;
    for i := 0 to |src|
      invariant dst == shared + Missing(src[..i], shared)
    {
      assert src[..i + 1][..i] == src[..i];
      if Find(shared, src[i].key) == None {
        dst := dst + [src[i]];
      }
    }
    assert src[..|src|] == src;
  }

  lemma {:induction false} SharedFails(dst: seq<Entry>, i: nat, src: seq<Entry>, path: string)
    requires i <= |dst| && MergeShared(dst[..i], src, path) == None
    ensures MergeShared(dst, src, path) == None
  {
    if i < |dst| {
      assert dst[..|dst| - 1][..i] == dst[..i];
      SharedFails(dst[..|dst| - 1], i, src, path);
    } else {
      assert dst[..i] == dst;
    }
  }

  method MergeAtPath(dst: Yaml, src: Yaml, path: string) returns (r: Option<Yaml>)
    ensures r == MergeChild(dst, src, path)
    decreases dst, 2
  {
    if path in IDENTITY_PATHS {
      r := MergeEntities(dst, src);
    } else {
      r := MergeByKind(dst, src, path);
    }
  }

  method MergeByKind(dst: Yaml, src: Yaml, path: string) returns (r: Option<Yaml>)
    ensures r == MergeValue(dst, src, path)
    decreases dst, 1
  {
    match (dst, src) {
      case (Mapping(ds), Mapping(ss)) =>
        var es := MergeMappings(ds, ss, path);
        r := if es == None then None else Some(Mapping(es.value));
      case (Sequence(ds), Sequence(ss)) =>
        r := Some(Sequence(ds + ss));
      case (Scalar(_, _), Scalar(_, _)) =>
        if IsNullScalar(dst) { return Some(src); }
        if IsNullScalar(src) { return Some(dst); }
        r := if dst.value == src.value && dst.tag == src.tag then Some(dst) else None;
      case _ =>
        r := if IsNull(dst) then Some(src) else if IsNull(src) then Some(dst) else None;
    }
  }

  method MergeEntities(dst: Yaml, src: Yaml) returns (r: Option<Yaml>)
    ensures r == MergeIdentityMap(dst, src)
  {
    if !dst.Mapping? || !src.Mapping? { return None; }
    var es := dst.entries;
    for i := 0 to |src.entries|
      invariant es == dst.entries + src.entries[..i]
      invariant forall k | 0 <= k < i :: Find(dst.entries, src.entries[k].key) == None
    {
      if Find(dst.entries, src.entries[i].key).Some? { return None; }
      es := es + [src.entries[i]];
    }
    assert src.entries[..|src.entries|] == src.entries;
    r := Some(Mapping(es));
  }

  // ----- what a merge keeps, path by path

  type Path = seq<string>

  /** The node reached through mappings. */
  function At(y: Yaml, p: Path): Option<Yaml>
    decreases |p|
  {
    if p == [] then Some(y)
    else if !y.Mapping? then None
    else
      match Find(y.entries, p[0])
      case None => None
      case Some(v) => At(v, p[1..])
  }

  function DottedPath(path: string, p: Path): string
    decreases |p|
  {
    if p == [] then path else DottedPath(JoinPath(path, p[0]), p[1..])
  }

  ghost predicate SameKeys(a: seq<Entry>, b: seq<Entry>, c: seq<Entry>) {
    forall k :: Find(c, k).Some? <==> Find(a, k).Some? || Find(b, k).Some?
  }

  /** c is what two nodes at one path become. */
  ghost predicate Combined(a: Yaml, b: Yaml, c: Yaml) {
    if IsNull(a) then c == b
    else if IsNull(b) then c == a
    else if a.Mapping? && b.Mapping? then c.Mapping? && SameKeys(a.entries, b.entries, c.entries)
    else if a.Sequence? && b.Sequence? then c == Sequence(a.items + b.items)
    else a == b == c
  }

  /** z is what the two sides have at a path: either's node alone, or both combined. */
  ghost predicate Agrees(x: Option<Yaml>, y: Option<Yaml>, z: Option<Yaml>) {
    match (x, y)
    case (None, _) => z == y
    case (_, None) => z == x
    case (Some(a), Some(b)) => z.Some? && Combined(a, b, z.value)
  }

  /** Two nodes that cannot stand at one path. */
  ghost predicate Clash(x: Option<Yaml>, y: Option<Yaml>, path: string) {
    && x.Some? && y.Some?
    && if path in IDENTITY_PATHS then
         !(x.value.Mapping? && y.value.Mapping? && !Shared(y.value.entries, x.value.entries))
       else
         && !IsNull(x.value) && !IsNull(y.value) && x.value != y.value
         && !(x.value.Mapping? && y.value.Mapping?) && !(x.value.Sequence? && y.value.Sequence?)
  }

  /** d stands at the path, in any of the entries that repeat a key. */
  ghost predicate StandsAt(y: Yaml, p: Path, d: Yaml)
    decreases |p|
  {
    if p == [] then y == d
    else
      && y.Mapping?
      && exists i :: 0 <= i < |y.entries| && y.entries[i].key == p[0] && StandsAt(y.entries[i].value, p[1..], d)
  }

  ghost predicate ClashAt(dst: Yaml, src: Yaml, path: string, p: Path, d: Yaml) {
    StandsAt(dst, p, d) && Clash(Some(d), At(src, p), DottedPath(path, p))
  }

  lemma {:induction false} FindJoin(a: seq<Entry>, b: seq<Entry>, k: string)
    ensures Find(a + b, k) == if Find(b, k).Some? then Find(b, k) else Find(a, k)
  {
    if b == [] {
      assert a + b == a;
    } else {
      FindJoin(a, b[..|b| - 1], k);
      assert (a + b)[..|a + b| - 1] == a + b[..|b| - 1];
    }
  }

  lemma {:induction false} FindMissing(src: seq<Entry>, dst: seq<Entry>, k: string)
    ensures Find(Missing(src, dst), k) == if Find(dst, k).Some? then None else Find(src, k)
  {
    if src != [] {
      var n := |src| - 1;
      FindMissing(src[..n], dst, k);
      FindJoin(Missing(src[..n], dst), if Find(dst, src[n].key).Some? then [] else [src[n]], k);
    }
  }

  /** What merging the shared keys makes of one key. */
  lemma {:induction false} FindMergedShared(dst: seq<Entry>, src: seq<Entry>, path: string, k: string)
    requires MergeShared(dst, src, path).Some?
    ensures var z := Find(MergeShared(dst, src, path).value, k);
            match (Find(dst, k), Find(src, k))
            case (None, _) => z == None
            case (Some(d), None) => z == Some(d)
            case (Some(d), Some(v)) => z.Some? && z == MergeChild(d, v, JoinPath(path, k))
  {
    if dst != [] {
      var n := |dst| - 1;
      FindMergedShared(dst[..n], src, path, k);
      var es := MergeShared(dst[..n], src, path).value;
      assert (es + [MergeEntry(dst[n], src, path).value])[..n] == es;
    }
  }

  /** What a merge makes of one key. */
  lemma FindMerged(dst: seq<Entry>, src: seq<Entry>, path: string, k: string)
    requires MergeNodes(dst, src, path).Some?
    ensures var z := Find(MergeNodes(dst, src, path).value, k);
            match (Find(dst, k), Find(src, k))
            case (None, y) => z == y
            case (x, None) => z == x
            case (Some(d), Some(v)) => z.Some? && z == MergeChild(d, v, JoinPath(path, k))
  {
    var es := MergeShared(dst, src, path).value;
    FindMergedShared(dst, src, path, k);
    FindMissing(src, es, k);
    FindJoin(es, Missing(src, es), k);
  }

  /** A successful merge has at every path what the two sides combine to there. */
  lemma {:induction false} MergeAgrees(dst: Yaml, src: Yaml, path: string, p: Path)
    requires MergeChild(dst, src, path).Some?
    ensures Agrees(At(dst, p), At(src, p), At(MergeChild(dst, src, path).value, p))
    decreases |p|
  {
    var r := MergeChild(dst, src, path).value;
    if dst.Mapping? && src.Mapping? {
      if p == [] {
        forall k ensures Find(r.entries, k).Some? <==> Find(dst.entries, k).Some? || Find(src.entries, k).Some? {
          MergedKey(dst.entries, src.entries, path, k);
        }
      } else {
        MergedKey(dst.entries, src.entries, path, p[0]);
        var x, y := Find(dst.entries, p[0]), Find(src.entries, p[0]);
        if x.Some? && y.Some? {
          MergeAgrees(x.value, y.value, JoinPath(path, p[0]), p[1..]);
        }
      }
    }
  }

  lemma MergedKey(dst: seq<Entry>, src: seq<Entry>, path: string, k: string)
    requires MergeChild(Mapping(dst), Mapping(src), path).Some?
    ensures MergeChild(Mapping(dst), Mapping(src), path).value.Mapping?
    ensures var z := Find(MergeChild(Mapping(dst), Mapping(src), path).value.entries, k);
            match (Find(dst, k), Find(src, k))
            case (None, y) => z == y
            case (x, None) => z == x
            case (Some(d), Some(v)) =>
              path !in IDENTITY_PATHS && z.Some? && z == MergeChild(d, v, JoinPath(path, k))
  {
    if path in IDENTITY_PATHS {
      FindJoin(dst, src, k);
      if Find(src, k).Some? {
        var i :| 0 <= i < |src| && src[i].key == k;
      }
    } else {
      FindMerged(dst, src, path, k);
    }
  }

  /** A failed merge has two nodes that clash. */
  lemma {:induction false} FailureHasClash(dst: Yaml, src: Yaml, path: string) returns (p: Path, d: Yaml)
    requires MergeChild(dst, src, path) == None
    ensures ClashAt(dst, src, path, p, d)
    decreases dst, 1
  {
    if path !in IDENTITY_PATHS && dst.Mapping? && src.Mapping? {
      assert MergeValue(dst, src, path) == None && MergeNodes(dst.entries, src.entries, path) == None;
      var i := FailingEntry(dst.entries, src.entries, path);
      var e := dst.entries[i];
      var q;
      q, d := FailureHasClash(e.value, Find(src.entries, e.key).value, JoinPath(path, e.key));
      p := [e.key] + q;
      assert p[1..] == q;
    } else {
      p, d := [], dst;
    }
  }

  lemma {:induction false} FailingEntry(dst: seq<Entry>, src: seq<Entry>, path: string) returns (i: nat)
    requires MergeShared(dst, src, path) == None
    ensures i < |dst| && MergeEntry(dst[i], src, path) == None
    decreases dst, 0
  {
    var n := |dst| - 1;
    if MergeEntry(dst[n], src, path) == None { i := n; } else { i := FailingEntry(dst[..n], src, path); }
  }

  lemma {:induction false} EntryFails(dst: seq<Entry>, i: nat, src: seq<Entry>, path: string)
    requires i < |dst| && MergeEntry(dst[i], src, path) == None
    ensures MergeShared(dst, src, path) == None
  {
    var n := |dst| - 1;
    if i < n {
      assert dst[..n][i] == dst[i];
      EntryFails(dst[..n], i, src, path);
    }
  }

  /** Two nodes that clash make the merge fail. */
  lemma {:induction false} ClashFails(dst: Yaml, src: Yaml, path: string, p: Path, d: Yaml)
    requires ClashAt(dst, src, path, p, d)
    ensures MergeChild(dst, src, path) == None
    decreases |p|
  {
    if p != [] {
      var ds, ss := dst.entries, src.entries;
      var i :| 0 <= i < |ds| && ds[i].key == p[0] && StandsAt(ds[i].value, p[1..], d);
      var v := Find(ss, p[0]).value;
      if path in IDENTITY_PATHS {
        KeyIsShared(ss, ds, i);
      } else {
        ClashFails(ds[i].value, v, JoinPath(path, p[0]), p[1..], d);
        EntryFails(ds, i, ss, path);
        assert MergeNodes(ds, ss, path) == None && MergeValue(dst, src, path) == None;
      }
    }
  }

  lemma KeyIsShared(src: seq<Entry>, dst: seq<Entry>, i: nat)
    requires i < |dst| && Find(src, dst[i].key).Some?
    ensures Shared(src, dst)
  {
    var j :| 0 <= j < |src| && src[j].key == dst[i].key;
    assert Find(dst, src[j].key).Some?;
  }

  /** A merge fails exactly when some path holds two nodes that clash. */
  lemma FailsIffClash(dst: Yaml, src: Yaml, path: string)
    ensures MergeChild(dst, src, path) == None <==> exists p, d :: ClashAt(dst, src, path, p, d)
  {
    if MergeChild(dst, src, path) == None {
      var p, d := FailureHasClash(dst, src, path);
      assert ClashAt(dst, src, path, p, d);
    } else {
      forall p, d ensures !ClashAt(dst, src, path, p, d) {
        if ClashAt(dst, src, path, p, d) { ClashFails(dst, src, path, p, d); }
      }
    }
  }

  /** Despite the comment on isNull, a null yields to another value exactly if it is not written out. */
  lemma WrittenNullConflicts(path: string, tag: string, written: string, y: Yaml)
    requires path !in IDENTITY_PATHS && y != Scalar(tag, written)
    requires y.Mapping? || y.Sequence? || (y.Scalar? && y.value != "")
    ensures var giving := (tag == "!!null" || tag == "") && written == "";
            && MergeChild(Scalar(tag, written), y, path) == (if giving then Some(y) else None)
            && MergeChild(y, Scalar(tag, written), path) == (if giving then Some(y) else None)
    ensures MergeChild(Unset, y, path) == Some(y) == MergeChild(y, Unset, path)
  {
  }

  /** Where entities are named, a null does not yield, not even an empty one. */
  lemma NullEntitiesConflict(path: string, entries: seq<Entry>)
    ensures path in IDENTITY_PATHS <==> MergeChild(Scalar("!!null", ""), Mapping(entries), path) == None
  {
  }
}
