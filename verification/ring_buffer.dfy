/** The generic ring that keeps the latest values, and the arithmetic of wrapped positions that the log's circular byte
    buffer shares with it. */
module RingBuffer {

  /** The last n values of a history, or all of them. */
  function Last<T>(history: seq<T>, n: nat): (r: seq<T>)
    ensures |r| == if |history| < n then |history| else n
  {
    if |history| <= n then history else history[|history| - n..]
  }

  /** Forgetting before appending loses nothing that would be kept. */
  lemma LastOfLast<T>(history: seq<T>, more: seq<T>, n: nat)
    ensures Last(Last(history, n) + more, n) == Last(history + more, n)
  {
  }

  /** The array position i places behind start. */
  function Slot(start: nat, i: nat, n: nat): (r: nat)
    requires start < n && i <= n
    ensures r < n
  {
    if start + i < n then start + i else start + i - n
  }

  lemma ModIsSlot(start: nat, i: nat, n: nat)
    requires start < n && i <= n
    ensures (start + i) % n == Slot(start, i, n)
  {
    ModStep(start + i, n);
  }

  lemma ModStep(a: nat, n: nat)
    requires 0 < n && a < 2 * n
    ensures a % n == if a < n then a else a - n
  {
    var q: int := a / n;
    assert a == q * n + a % n;
    Multiples(q - 1, n);
    assert (q - 1) * n == q * n - n;
    Multiples(q, n);
  }

  lemma Multiples(d: int, n: nat)
    ensures d >= 1 ==> d * n >= n
    ensures d <= -1 ==> d * n + n <= 0
  {
    if d >= 1 {
      NatTimes(d - 1, n);
      assert d * n == (d - 1) * n + n;
    } else if d <= -1 {
      NatTimes(-d - 1, n);
      assert d * n == -((-d - 1) * n) - n;
    }
  }

  lemma NatTimes(a: int, b: nat)
    ensures a >= 0 ==> a * b >= 0
  {
  }

  /** From start on, wrapping around, the slots hold the kept values in order. */
  ghost predicate Holds<T>(slots: seq<T>, start: nat, kept: seq<T>) {
    && start < |slots| && |kept| <= |slots|
    && forall i | 0 <= i < |kept| :: slots[Slot(start, i, |slots|)] == kept[i]
  }

  /** Writing behind the kept values adds one. */
  lemma WriteBehind<T>(slots: seq<T>, start: nat, kept: seq<T>, v: T)
    requires Holds(slots, start, kept) && |kept| < |slots|
    ensures Holds(slots[Slot(start, |kept|, |slots|) := v], start, kept + [v])
  {
  }

  /** When every slot is kept, the one behind the last is the oldest. */
  lemma ForgetOldest<T>(slots: seq<T>, start: nat, kept: seq<T>)
    requires Holds(slots, start, kept) && kept != []
    ensures Holds(slots, Slot(start, 1, |slots|), kept[1..])
    ensures |kept| == |slots| ==> Slot(Slot(start, 1, |slots|), |kept| - 1, |slots|) == start
  {
    forall i | 0 <= i < |kept| - 1
      ensures slots[Slot(Slot(start, 1, |slots|), i, |slots|)] == kept[1..][i]
    {
      assert Slot(Slot(start, 1, |slots|), i, |slots|) == Slot(start, i + 1, |slots|);
    }
  }

  /** Writing over the oldest of a full buffer forgets it and adds one. */
  lemma Overwritten<T>(slots: seq<T>, start: nat, history: seq<T>, v: T)
    requires Holds(slots, start, Last(history, |slots|)) && |history| >= |slots|
    ensures Holds(slots[start := v], Slot(start, 1, |slots|), Last(history + [v], |slots|))
  {
    var kept := Last(history, |slots|);
    ForgetOldest(slots, start, kept);
    WriteBehind(slots, Slot(start, 1, |slots|), kept[1..], v);
    assert Last(history + [v], |slots|) == kept[1..] + [v];
  }

  class Ring<T(0)> {
    ghost var pushed: seq<T>  // everything ever pushed
    const buf: array<T>
    var head: nat
    var size: nat

    ghost predicate Valid()
      reads this, buf
    {
      && head < buf.Length && size <= buf.Length && (size < buf.Length ==> head == 0)
      && |Last(pushed, buf.Length)| == size && Holds(buf[..], head, Last(pushed, buf.Length))
    }

    constructor (capacity: int)
      ensures Valid() && fresh(buf) && pushed == []
      ensures buf.Length == if capacity < 1 then 1 else capacity
    {
      buf := new T[if capacity < 1 then 1 else capacity];
      head, size, pushed := 0, 0, [];
    }

    /** Stores one more value; a full buffer gives up its oldest for it. */
    method Push(v: T)
      requires Valid()
      modifies this, buf
      ensures Valid() && pushed == old(pushed) + [v]
    {
      if size < buf.Length {
        Fill(v);
      } else {
        Overwrite(v);
      }
    }

    method Fill(v: T)
      requires Valid() && size < buf.Length
      modifies this, buf
      ensures Valid() && pushed == old(pushed) + [v]
    {
      ModIsSlot(head, size, buf.Length);
      WriteBehind(buf[..], head, pushed, v);
      ghost var slots := buf[..][Slot(head, size, buf.Length) := v];
      buf[(head + size) % buf.Length] := v;
      assert buf[..] == slots;
      size := size + 1;
      pushed := pushed + [v];
    }

    method Overwrite(v: T)
      requires Valid() && size == buf.Length
      modifies this, buf
      ensures Valid() && pushed == old(pushed) + [v]
    {
      ModIsSlot(head, 1, buf.Length);
      Overwritten(buf[..], head, pushed, v);
      ghost var slots := buf[..][head := v];
      buf[head] := v;
      assert buf[..] == slots;
      head := (head + 1) % buf.Length;
      pushed := pushed + [v];
    }

    /** What the buffer holds, oldest first. */
    method Slice() returns (result: seq<T>)
      requires Valid()
      ensures result == if |pushed| > buf.Length then pushed[|pushed| - buf.Length..] else pushed
    {
      result := [];
      for i := 0 to size
        invariant result == Last(pushed, buf.Length)[..i]
      {
        ModIsSlot(head, i, buf.Length);
        result := result + [buf[(head + i) % buf.Length]];
      }
    }
  }
}
