/** The FIFO byte cache: stored items, the order they were stored in, and the number of bytes they hold together, which
    never passes the limit. */
module ByteCache {
  import opened Collections

  type Data = seq<bv8>

  ghost function Size(items: map<int, Data>, id: int): nat {
    if id in items then |items[id]| else 0
  }

  /** The bytes stored under a list of keys. */
  ghost function Bytes(items: map<int, Data>, ids: seq<int>): nat {
    if ids == [] then 0 else Size(items, ids[0]) + Bytes(items, ids[1..])
  }

  /** The list without a key. */
  ghost function Without(ids: seq<int>, id: int): seq<int> {
    if ids == [] then []
    else if ids[0] == id then Without(ids[1..], id)
    else [ids[0]] + Without(ids[1..], id)
  }

  /** after is what is left of the ids from k on, with its data, and the new item behind it. */
  ghost predicate KeepsFrom(ids: seq<int>, items: map<int, Data>, k: nat, id: int, data: Data,
                            order: seq<int>, after: map<int, Data>)
    requires k <= |ids|
  {
    && order == ids[k..] + [id]
    && after.Keys == Elements(ids[k..]) + {id}
    && id in after && after[id] == data
    && (forall x | x in ids[k..] :: x in after && x in items && after[x] == items[x])
  }

  /** k ids have to go before the rest and the new data fit; k - 1 would not do. */
  ghost predicate LeastCut(ids: seq<int>, items: map<int, Data>, maxSize: int, k: nat, data: Data)
    requires k <= |ids|
  {
    && Bytes(items, ids[k..]) + |data| <= maxSize
    && (k > 0 ==> Bytes(items, ids[k - 1..]) + |data| > maxSize)
  }

  lemma TailIds(ids: seq<int>)
    requires ids != [] && Distinct(ids)
    ensures Elements(ids[1..]) == Elements(ids) - {ids[0]} && Distinct(ids[1..])
  {
    assert ids == [ids[0]] + ids[1..];
    ElementsConcat([ids[0]], ids[1..]);
  }

  lemma {:induction false} WithoutIds(ids: seq<int>, id: int)
    requires Distinct(ids)
    ensures Elements(Without(ids, id)) == Elements(ids) - {id} && Distinct(Without(ids, id))
  {
    if ids != [] {
      TailIds(ids);
      WithoutIds(ids[1..], id);
      assert ids[0] in Elements(ids);
      if ids[0] != id {
        ElementsConcat([ids[0]], Without(ids[1..], id));
        assert ids[0] !in Elements(Without(ids[1..], id));
      }
    }
  }

  lemma {:induction false} WithoutNothing(ids: seq<int>, id: int)
    requires id !in ids
    ensures Without(ids, id) == ids
  {
    if ids != [] {
      assert ids == [ids[0]] + ids[1..];
      WithoutNothing(ids[1..], id);
    }
  }

  lemma {:induction false} SameBytes(a: map<int, Data>, b: map<int, Data>, ids: seq<int>)
    requires forall x | x in ids :: Size(a, x) == Size(b, x)
    ensures Bytes(a, ids) == Bytes(b, ids)
  {
    if ids != [] {
      assert forall x | x in ids[1..] :: x in ids;
      assert ids[0] in ids;
      SameBytes(a, b, ids[1..]);
    }
  }

  /** Both maps store the same data under the ids. */
  ghost predicate SameItems(a: map<int, Data>, b: map<int, Data>, ids: seq<int>) {
    forall x | x in ids :: x in a && x in b && a[x] == b[x]
  }

  lemma SameToIds(items: map<int, Data>, ids: seq<int>, id: int)
    requires Elements(ids) == items.Keys - {id}
    ensures SameItems(items, items, ids)
  {
    assert forall x | x in ids :: x in Elements(ids);
  }

  lemma SameThrough(a: map<int, Data>, b: map<int, Data>, c: map<int, Data>, ids: seq<int>)
    requires ids != [] && SameItems(a, b, ids[1..]) && SameItems(b, c, ids)
    ensures SameItems(a, c, ids[1..]) && Bytes(b, ids[1..]) == Bytes(c, ids[1..])
  {
    assert forall x | x in ids[1..] :: x in ids;
    SameBytes(b, c, ids[1..]);
  }

  lemma {:induction false} BytesJoin(items: map<int, Data>, a: seq<int>, b: seq<int>)
    ensures Bytes(items, a + b) == Bytes(items, a) + Bytes(items, b)
  {
    if a == [] {
      assert a + b == b;
    } else {
      assert (a + b)[1..] == a[1..] + b;
      BytesJoin(items, a[1..], b);
    }
  }

  class Cache {
    var items: map<int, Data>
    var order: seq<int>
    var size: int
    const maxSize: int

    /** The order lists every stored key once, and size is what they hold, within the limit. */
    ghost predicate Valid()
      reads this
    {
      && Distinct(order) && Elements(order) == items.Keys
      && size == Bytes(items, order) && (order != [] ==> size <= maxSize)
    }

    constructor (maxBytes: int)
      ensures Valid() && items == map[] && order == [] && maxSize == maxBytes
    {
      items, order, size, maxSize := map[], [], 0, maxBytes;
    }

    /** Stores data as the newest item, dropping the oldest items only while there is no room. */
    method Add(id: int, data: Data) returns (ok: bool, ghost k: nat)
      requires Valid()
      modifies this
      ensures Valid() && ok == (|data| <= maxSize) && k <= |Without(old(order), id)|
      ensures !ok ==> items == old(items) && order == old(order) && size == old(size)
      ensures ok ==> LeastCut(Without(old(order), id), old(items), maxSize, k, data)
      ensures ok ==> KeepsFrom(Without(old(order), id), old(items), k, id, data, order, items)
    {
      if |data| > maxSize {
        return false, 0;
      }
      WithoutIds(order, id);
      if id in items {
        Discount(id);
      } else {
        WithoutNothing(order, id);
      }
      k := Evict(id, |data|);
      Append(id, data);
      ok := true;
    }

    /** Stores data under a key, as the newest item. */
    method Append(id: int, data: Data)
      requires Distinct(order) && Elements(order) == items.Keys - {id}
      requires size == Bytes(items, order) && size + |data| <= maxSize
      modifies this
      ensures Valid() && order == old(order) + [id] && items == old(items)[id := data]
    {
      items := items[id := data];
      order := order + [id];
      size := size + |data|;
      assert id !in Elements(old(order));
      ElementsConcat(old(order), [id]);
      assert Elements([id]) == {id};
      assert forall x | x in old(order) :: x in Elements(old(order));
      SameBytes(items, old(items), old(order));
      BytesJoin(items, old(order), [id]);
      assert [id][1..] == [];
      assert Bytes(items, [id]) == |data|;
    }

    /** Drops the oldest items until the data fits. */
    method Evict(id: int, dataSize: nat) returns (ghost k: nat)
      requires Distinct(order) && Elements(order) == items.Keys - {id} && size == Bytes(items, order)
      requires dataSize <= maxSize
      modifies this`order, this`size, this`items
      ensures k <= |old(order)| && order == old(order)[k..] && Distinct(order) && Elements(order) == items.Keys - {id}
      ensures size == Bytes(old(items), order) == Bytes(items, order) && size + dataSize <= maxSize
      ensures k > 0 ==> Bytes(old(items), old(order)[k - 1..]) + dataSize > maxSize
      ensures SameItems(items, old(items), order)
    {
      k := 0;
      SameToIds(items, order, id);
      while size + dataSize > maxSize && |order| > 0
        invariant k <= |old(order)| && order == old(order)[k..] && Distinct(order)
        invariant Elements(order) == items.Keys - {id}
        invariant size == Bytes(old(items), order) == Bytes(items, order)
        invariant k > 0 ==> Bytes(old(items), old(order)[k - 1..]) + dataSize > maxSize
        invariant SameItems(items, old(items), order)
        decreases |order|
      {
        ghost var before, was := order, items;
        DropOldest(id);
        assert order == old(order)[k + 1..];
        SameThrough(items, was, old(items), before);
        k := k + 1;
      }
    }

    /** One turn of the eviction loop. */
    method DropOldest(id: int)
      requires Distinct(order) && Elements(order) == items.Keys - {id} && size == Bytes(items, order) && order != []
      modifies this`order, this`size, this`items
      ensures order == old(order)[1..] && Distinct(order) && Elements(order) == items.Keys - {id}
      ensures size == Bytes(old(items), order) == Bytes(items, order)
      ensures SameItems(items, old(items), order)
    {
      var oldestID := order[0];
      assert oldestID in Elements(order);
      TailIds(order);
      order := order[1..];
      size := size - |items[oldestID]|;
      items := items - {oldestID};
      forall x | x in order ensures x in items && x in old(items) && items[x] == old(items)[x] {
        assert x in Elements(order);
      }
      SameBytes(items, old(items), order);
    }

    /** Takes an existing key out of the size and the order, as a replacement does first. */
    method Discount(id: int)
      requires Valid() && id in items
      modifies this`size, this`order
      ensures order == Without(old(order), id) && Distinct(order) && Elements(order) == items.Keys - {id}
      ensures size == Bytes(items, order)
    {
      size := size - |items[id]|;
      RemoveOrder(id);
      WithoutIds(old(order), id);
      assert id in Elements(old(order));
      BytesWithout(items, old(order), id);
    }

    method RemoveOrder(id: int)
      requires Distinct(order)
      modifies this`order
      ensures order == Without(old(order), id)
    {
      for i := 0 to |order|
        invariant order == old(order) && id !in order[..i]
      {
        if order[i] == id {
          RemovedAt(order, i, id);
          order := order[..i] + order[i + 1..];
          return;
        }
      }
      assert order[..|order|] == order;
      WithoutNothing(order, id);
    }

    method Get(id: int) returns (found: bool, data: Data)
      requires Valid()
      ensures found <==> id in Elements(order)
      ensures found ==> data == items[id]
    {
      found := id in items;
      data := if found then items[id] else [];
    }

    method Clear()
      requires Valid()
      modifies this
      ensures Valid() && items == map[] && order == [] && size == 0
    {
      items, order, size := map[], [], 0;
    }
  }

  lemma {:induction false} RemovedAt(ids: seq<int>, i: nat, id: int)
    requires Distinct(ids) && i < |ids| && ids[i] == id
    ensures ids[..i] + ids[i + 1..] == Without(ids, id)
  {
    if i == 0 {
      WithoutNothing(ids[1..], id);
    } else {
      RemovedAt(ids[1..], i - 1, id);
      assert ids[..i] + ids[i + 1..] == [ids[0]] + (ids[1..][..i - 1] + ids[1..][i..]);
    }
  }

  lemma {:induction false} BytesWithout(items: map<int, Data>, ids: seq<int>, id: int)
    requires Distinct(ids) && id in ids
    ensures Bytes(items, Without(ids, id)) == Bytes(items, ids) - Size(items, id)
  {
    assert ids == [ids[0]] + ids[1..];
    if ids[0] == id {
      WithoutNothing(ids[1..], id);
    } else {
      BytesWithout(items, ids[1..], id);
    }
  }
}
