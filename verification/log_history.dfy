/** The log monitor's circular byte buffer: writes of any length around the end of the array, and what is read back of
    them, oldest byte first. */
module LogHistory {
  import opened RingBuffer

  /** Copies p into the array from a position on. */
  method CopyInto(a: array<bv8>, at: nat, p: seq<bv8>)
    requires at + |p| <= a.Length
    modifies a
    ensures forall i | 0 <= i < |p| :: a[at + i] == p[i]
    ensures forall i | 0 <= i < at || at + |p| <= i < a.Length :: a[i] == old(a[i])
  {
    for k := 0 to |p|
      invariant forall i | 0 <= i < k :: a[at + i] == p[i]
      invariant forall i | 0 <= i < at || at + k <= i < a.Length :: a[i] == old(a[i])
    {
      a[at + k] := p[k];
    }
  }

  /** p stands behind position head, wrapping around, and nothing else has changed. */
  ghost predicate Written<T(!new)>(before: seq<T>, after: seq<T>, head: nat, p: seq<T>) {
    && |after| == |before| && head < |after| && |p| <= |after|
    && (forall k | 0 <= k < |p| :: after[Slot(head, k, |after|)] == p[k])
    && forall j | 0 <= j < |after| && !(head <= j < head + |p|) && !(j < head + |p| - |after|) :: after[j] == before[j]
  }

  /** The same position reached over two different way points. */
  lemma SameSlot(start: nat, d: nat, i: nat, k: nat, m: nat, n: nat)
    requires start < n && d <= n && i <= n && k <= n && m <= n && d + i == k + m
    ensures Slot(Slot(start, d, n), i, n) == Slot(Slot(start, k, n), m, n)
  {
  }

  /** A kept position that the next m writes leave room for is not written. */
  lemma Untouched(start: nat, j: nat, k: nat, m: nat, n: nat)
    requires start < n && j < k <= n && m <= n && k + m <= n + j
    ensures var at, head := Slot(start, j, n), Slot(start, k, n);
            !(head <= at < head + m) && !(at < head + m - n)
  {
  }

  /** How many of the oldest values give way to p. */
  function Drop(kept: nat, p: nat, n: nat): nat {
    if kept + p > n then kept + p - n else 0
  }

  /** Writing several values behind the kept ones forgets as many of the oldest as there is no room for. */
  lemma WriteManyBehind<T(!new)>(before: seq<T>, after: seq<T>, start: nat, kept: seq<T>, p: seq<T>)
    requires Holds(before, start, kept) && |p| <= |before|
    requires Written(before, after, Slot(start, |kept|, |before|), p)
    ensures Holds(after, Slot(start, Drop(|kept|, |p|, |before|), |before|), Last(kept + p, |before|))
  {
    var n, drop := |before|, Drop(|kept|, |p|, |before|);
    var last := Last(kept + p, n);
    assert last == (kept + p)[drop..];
    forall i | 0 <= i < |last|
      ensures after[Slot(Slot(start, drop, n), i, n)] == last[i]
    {
      WrittenAt(before, after, start, kept, p, i);
      assert last[i] == (kept + p)[drop + i];
    }
  }

  lemma WrittenAt<T(!new)>(before: seq<T>, after: seq<T>, start: nat, kept: seq<T>, p: seq<T>, i: nat)
    requires Holds(before, start, kept) && |p| <= |before|
    requires Written(before, after, Slot(start, |kept|, |before|), p)
    requires Drop(|kept|, |p|, |before|) + i < |kept| + |p|
    ensures i <= |before|
    ensures after[Slot(Slot(start, Drop(|kept|, |p|, |before|), |before|), i, |before|)]
            == (kept + p)[Drop(|kept|, |p|, |before|) + i]
  {
    var n, j := |before|, Drop(|kept|, |p|, |before|) + i;
    if j < |kept| {
      SameSlot(start, j - i, i, j, 0, n);
      Untouched(start, j, |kept|, |p|, n);
      assert before[Slot(start, j, n)] == kept[j];
    } else {
      SameSlot(start, j - i, i, |kept|, j - |kept|, n);
    }
  }

  class CircularBuffer {
    ghost var written: seq<bv8>  // everything ever written
    const data: array<bv8>
    var head: nat
    var size: nat

    /** Where the oldest kept byte is. */
    function Start(): nat
      requires head < data.Length && size <= data.Length
      reads this
    {
      StartOf(head, size, data.Length)
    }

    ghost predicate Valid()
      reads this, data
    {
      && |Last(written, data.Length)| == size
      && if data.Length == 0 then head == 0
         else head < data.Length && Holds(data[..], Start(), Last(written, data.Length))
    }

    constructor (capacity: nat)
      ensures Valid() && fresh(data) && written == [] && data.Length == capacity
    {
      data := new bv8[capacity];
      head, size, written := 0, 0, [];
    }

    method Write(p: seq<bv8>)
      requires Valid()
      modifies this, data
      ensures Valid() && written == old(written) + p
    {
      if |p| == 0 {
        assert written + p == written;
        return;
      }
      if |p| >= data.Length {
        WriteLong(p);
      } else {
        WriteShort(p);
      }
    }

    /** The input alone fills the buffer. */
    method WriteLong(p: seq<bv8>)
      requires Valid() && |p| >= data.Length
      modifies this, data
      ensures Valid() && written == old(written) + p
    {
      ghost var tail := p[|p| - data.Length..];
      CopyInto(data, 0, p[|p| - data.Length..]);
      assert data[..] == tail;
      LastIsTail(written, p, data.Length);
      head, size := 0, data.Length;
      written := written + p;
      assert data.Length > 0 ==> Holds(data[..], 0, tail);
    }

    method WriteShort(p: seq<bv8>)
      requires Valid() && 0 < |p| < data.Length
      modifies this, data
      ensures Valid() && written == old(written) + p
    {
      ghost var before := data[..];
      PutWrapped(p);
      ShortWriteHolds(before, data[..], head, size, written, p);
      head := Slot(head, |p|, data.Length);
      size := if size + |p| > data.Length then data.Length else size + |p|;
      written := written + p;
    }

    /** Copies p behind head in one or two parts. */
    method PutWrapped(p: seq<bv8>)
      requires head < data.Length && |p| < data.Length
      modifies data
      ensures Written(old(data[..]), data[..], head, p)
    {
      var firstPart := data.Length - head;
      if firstPart >= |p| {
        CopyInto(data, head, p);
      } else {
        CopyInto(data, head, p[..firstPart]);
        CopyInto(data, 0, p[firstPart..]);
      }
    }

    /** Where the oldest byte stands. */
    method Oldest() returns (start: nat)
      requires head < data.Length && size <= data.Length
      ensures start == Start()
    {
      StartIsMod(head, size, data.Length);
      start := (head + data.Length - size) % data.Length;
    }

    /** The bytes from a position on, in one or two parts. */
    method ReadFrom(start: nat, ghost kept: seq<bv8>) returns (result: seq<bv8>)
      requires Holds(data[..], start, kept) && |kept| == size
      ensures result == kept
    {
      HeldFrom(data[..], start, kept);
      if start + size <= data.Length {
        result := data[start..start + size];
      } else {
        var firstPart := data.Length - start;
        result := data[start..] + data[..size - firstPart];
      }
    }

    /** The bytes kept, oldest first. */
    method GetHistory() returns (result: seq<bv8>)
      requires Valid()
      ensures result == if |written| > data.Length then written[|written| - data.Length..] else written
    {
      if size == 0 {
        return [];
      }
      var start := Oldest();
      result := ReadFrom(start, Last(written, data.Length));
    }
  }

  /** What a wrapped run of slots holds, read in one or two parts. */
  lemma HeldFrom(slots: seq<bv8>, start: nat, kept: seq<bv8>)
    requires Holds(slots, start, kept)
    ensures var n, size := |slots|, |kept|;
            kept == if start + size <= n then slots[start..start + size]
                    else slots[start..] + slots[..size - (n - start)]
  {
    var n, size := |slots|, |kept|;
    var read := if start + size <= n then slots[start..start + size] else slots[start..] + slots[..size - (n - start)];
    forall i | 0 <= i < size ensures read[i] == kept[i] {
      assert slots[Slot(start, i, n)] == kept[i];
    }
  }

  /** Where the oldest of size values before head stands. */
  function StartOf(head: nat, size: nat, n: nat): nat
    requires head < n && size <= n
  {
    if head >= size then head - size else head + n - size
  }

  lemma ShortWriteHolds(before: seq<bv8>, after: seq<bv8>, head: nat, size: nat, written: seq<bv8>, p: seq<bv8>)
    requires |p| < |before| && head < |before| && |Last(written, |before|)| == size
    requires Holds(before, StartOf(head, size, |before|), Last(written, |before|))
    requires Written(before, after, head, p)
    ensures var n := |before|;
            var head', size' := Slot(head, |p|, n), if size + |p| > n then n else size + |p|;
            |Last(written + p, n)| == size' && Holds(after, StartOf(head', size', n), Last(written + p, n))
  {
    MovesStart(head, size, |p|, |before|);
    WriteManyBehind(before, after, StartOf(head, size, |before|), Last(written, |before|), p);
    LastOfLast(written, p, |before|);
  }

  lemma LastIsTail(history: seq<bv8>, p: seq<bv8>, n: nat)
    requires |p| >= n
    ensures Last(history + p, n) == p[|p| - n..]
  {
  }

  /** After m more bytes the oldest kept byte stands Drop places further on. */
  lemma MovesStart(head: nat, size: nat, m: nat, n: nat)
    requires head < n && size <= n && m < n
    ensures Slot(StartOf(head, size, n), size, n) == head
    ensures Slot(StartOf(head, size, n), Drop(size, m, n), n)
            == StartOf(Slot(head, m, n), if size + m > n then n else size + m, n)
  {
  }

  lemma StartIsMod(head: nat, size: nat, n: nat)
    requires head < n && size <= n
    ensures (head + n - size) % n == StartOf(head, size, n)
  {
    if head >= size { assert head + n - size == 1 * n + (head - size); }
  }
}
