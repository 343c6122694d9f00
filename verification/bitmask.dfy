/** Sets of small naturals packed into 64-bit words. A word is modelled by its bits, least significant first, so that
    masks are compared and united bit by bit. */
module BitMasks {

  const WORD_BITS := 64

  type Word = w: seq<bool> | |w| == WORD_BITS witness seq(WORD_BITS, _ => false)
  type BitMask = seq<Word>

  const ZERO: Word := seq(WORD_BITS, _ => false)

  function Or(a: Word, b: Word): Word {
    seq(WORD_BITS, i requires 0 <= i < WORD_BITS => a[i] || b[i])
  }

  function AndNot(a: Word, b: Word): Word {
    seq(WORD_BITS, i requires 0 <= i < WORD_BITS => a[i] && !b[i])
  }

  predicate Has(m: BitMask, bit: nat)
    requires bit / WORD_BITS < |m|
  {
    m[bit / WORD_BITS][bit % WORD_BITS]
  }

  /** The bits a mask holds. */
  ghost function Bits(m: BitMask): set<nat> {
    set b: nat | b < WORD_BITS * |m| && Has(m, b)
  }

  /** A mask of the given number of words, with no bit set. */
  function EmptyMask(words: nat): (m: BitMask)
    ensures |m| == words && Bits(m) == {}
  {
    seq(words, _ => ZERO)
  }

  /** The mask with one more bit. */
  function SetBit(m: BitMask, bit: nat): (r: BitMask)
    requires bit < WORD_BITS * |m|
    ensures |r| == |m| && Bits(r) == Bits(m) + {bit}
  {
    var r: BitMask := m[bit / WORD_BITS := m[bit / WORD_BITS][bit % WORD_BITS := true]];
    assert forall b: nat | b < WORD_BITS * |m| :: Has(r, b) <==> (Has(m, b) || b == bit);
    r
  }

  method UnionMask(left: BitMask, right: BitMask) returns (result: BitMask)
    requires |left| == |right|
    ensures |result| == |left| && Bits(result) == Bits(left) + Bits(right)
  {
    result := EmptyMask(|left|);
    for i := 0 to |left|
      invariant |result| == |left|
      invariant forall k | 0 <= k < i :: result[k] == Or(left[k], right[k])
    {
      result := result[i := Or(left[i], right[i])];
    }
    assert forall b: nat | b < WORD_BITS * |left| :: Has(result, b) <==> Has(left, b) || Has(right, b);
  }

  method SubsetOf(m: BitMask, other: BitMask) returns (r: bool)
    requires |m| == |other|
    ensures r <==> Bits(m) <= Bits(other)
  {
    for i := 0 to |m|
      invariant forall k | 0 <= k < i :: AndNot(m[k], other[k]) == ZERO
    {
      if AndNot(m[i], other[i]) != ZERO {
        ghost var k := NonzeroBit(AndNot(m[i], other[i]));
        ghost var b := WORD_BITS * i + k;
        assert b / WORD_BITS == i && b % WORD_BITS == k;
        assert b in Bits(m) && b !in Bits(other);
        return false;
      }
    }
    forall b | b in Bits(m)
      ensures b in Bits(other)
    {
      assert !AndNot(m[b / WORD_BITS], other[b / WORD_BITS])[b % WORD_BITS];
    }
    return true;
  }

  lemma NonzeroBit(w: Word) returns (k: nat)
    requires w != ZERO
    ensures k < WORD_BITS && w[k]
  {
    k :| k < WORD_BITS && w[k] != ZERO[k];
  }
}
