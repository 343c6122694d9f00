/** Go slices: a length over a backing array that several slices may share. Appending writes the shared array while it
    has room, and moves to a fresh one when it has none. */
module Slices {

  datatype Slice<T> = Slice(arr: array?<T>, len: nat)
  {
    ghost predicate Valid() {
      if arr == null then len == 0 else len <= arr.Length
    }

    ghost function Contents(): (s: seq<T>)
      requires Valid()
      reads Backing()
      ensures |s| == len
    {
      if arr == null then [] else arr[..len]
    }

    ghost function Backing(): set<object> {
      if arr == null then {} else {arr}
    }
  }

  function Nil<T>(): Slice<T> {
    Slice(null, 0)
  }

  /** Writes behind the slice when the backing array has room, and moves to a new array otherwise. */
  method Append<T>(s: Slice<T>, x: T) returns (r: Slice<T>)
    requires s.Valid()
    modifies s.Backing()
    ensures r.Valid() && r.Contents() == old(s.Contents()) + [x]
    ensures r.arr == s.arr || fresh(r.Backing())
    ensures r.arr == s.arr ==> forall i | 0 <= i < s.arr.Length && i != s.len :: s.arr[i] == old(s.arr[i])
    ensures s.arr != null && s.len < s.arr.Length ==> r.arr == s.arr
  {
    if s.arr != null && s.len < s.arr.Length {
      s.arr[s.len] := x;
      r := Slice(s.arr, s.len + 1);
    } else {
      var grown := new T[2 * s.len + 1](_ => x);
      for i := 0 to s.len
        invariant grown.Length == 2 * s.len + 1
        invariant s.arr != null ==> s.len <= s.arr.Length
        invariant s.arr != null ==> forall k | 0 <= k < i :: grown[k] == s.arr[k]
        invariant s.arr != null ==> unchanged(s.arr)
        invariant grown[s.len] == x
      {
        grown[i] := s.arr[i];
      }
      r := Slice(grown, s.len + 1);
    }
  }
}
