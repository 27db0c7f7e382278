/**
 The reassembly bitmask of an incoming handshake message: one bit for each byte of the body, eight to a
 byte of the mask, updated in place.
 */
module DtlsMask {

  /** Bit `k` of a byte. */
  predicate BitOf(b: bv8, k: nat)
    requires k < 8
  {
    (b >> k) & 1 == 1
  }

  /** The bits from `start`, inclusive, to `end`, exclusive. */
  function BitRange(start: nat, end: nat): bv8
    requires start <= 8 && end <= 8
  {
    ((!(((1 as bv16) << start) - 1) & (((1 as bv16) << end) - 1)) & 0xFF) as bv8
  }

  lemma BitRangeBits(start: nat, end: nat, k: nat)
    requires start <= end <= 8 && k < 8
    ensures BitOf(BitRange(start, end), k) <==> start <= k < end
  {
    assert start in {0, 1, 2, 3, 4, 5, 6, 7, 8};
    assert end in {0, 1, 2, 3, 4, 5, 6, 7, 8};
    assert k in {0, 1, 2, 3, 4, 5, 6, 7};
  }

  lemma OrBits(a: bv8, b: bv8, k: nat)
    requires k < 8
    ensures BitOf(a | b, k) <==> BitOf(a, k) || BitOf(b, k)
  {
    assert k in {0, 1, 2, 3, 4, 5, 6, 7};
  }

  lemma SameByte(a: bv8, b: bv8)
    requires forall k :: 0 <= k < 8 ==> (BitOf(a, k) <==> BitOf(b, k))
    ensures a == b
  {
    assert forall k :: k in {0, 1, 2, 3, 4, 5, 6, 7} ==> (BitOf(a, k) <==> BitOf(b, k));
    assert BitOf(a, 0) <==> BitOf(b, 0);
    assert BitOf(a, 1) <==> BitOf(b, 1);
    assert BitOf(a, 2) <==> BitOf(b, 2);
    assert BitOf(a, 3) <==> BitOf(b, 3);
    assert BitOf(a, 4) <==> BitOf(b, 4);
    assert BitOf(a, 5) <==> BitOf(b, 5);
    assert BitOf(a, 6) <==> BitOf(b, 6);
    assert BitOf(a, 7) <==> BitOf(b, 7);
  }

  lemma FullByte()
    ensures 0xFF == BitRange(0, 8) && 0 == BitRange(0, 0)
  {
  }

  predicate Marked(mask: seq<bv8>, k: nat) {
    k / 8 < |mask| && BitOf(mask[k / 8], k % 8)
  }

  /** Sets bits `lo` to `hi` of one byte of the mask. */
  method OrByte(mask: array<bv8>, i: nat, lo: nat, hi: nat)
    requires i < mask.Length && lo <= hi <= 8
    modifies mask
    ensures forall j :: 0 <= j < mask.Length && j != i ==> mask[j] == old(mask[j])
    ensures forall k :: 0 <= k < 8 ==> (BitOf(mask[i], k) <==> BitOf(old(mask[i]), k) || lo <= k < hi)
  {
    hide BitOf, BitRange;
    forall k | 0 <= k < 8
      ensures BitOf(mask[i] | BitRange(lo, hi), k) <==> BitOf(mask[i], k) || lo <= k < hi
    {
      OrBits(mask[i], BitRange(lo, hi), k);
      BitRangeBits(lo, hi, k);
    }
    mask[i] := mask[i] | BitRange(lo, hi);
  }

  /** Bytes `start`, inclusive, to `end`, exclusive, become marked; nothing else changes. */
  method MarkRange(mask: array<bv8>, start: nat, end: nat)
    requires start <= end <= 8 * mask.Length
    modifies mask
    ensures forall k :: 0 <= k < 8 * mask.Length ==>
              (Marked(mask[..], k) <==> old(Marked(mask[..], k)) || start <= k < end)
  {
    hide BitOf, BitRange;
    if start == end {
      return;
    }
    var first, last := start / 8, end / 8;
    if first == last {
      OrByte(mask, first, start % 8, end % 8);
    } else {
      OrByte(mask, first, start % 8, 8);
      var i := first + 1;
      while i < last
        invariant first < i <= last
        invariant forall j :: 0 <= j < mask.Length && !(first <= j < i) ==> mask[j] == old(mask[j])
        invariant forall k :: 0 <= k < 8 ==> (BitOf(mask[first], k) <==> BitOf(old(mask[first]), k) || start % 8 <= k)
        invariant forall j, k :: first < j < i && 0 <= k < 8 ==> BitOf(mask[j], k)
      {
        mask[i] := 0xFF;
        forall k | 0 <= k < 8
          ensures BitOf(0xFF, k)
        {
          FullByte();
          BitRangeBits(0, 8, k);
        }
        i := i + 1;
      }
      if end % 8 != 0 {
        OrByte(mask, last, 0, end % 8);
      }
    }
    forall k | 0 <= k < 8 * mask.Length
      ensures Marked(mask[..], k) <==> old(Marked(mask[..], k)) || start <= k < end
    {
      assert k == 8 * (k / 8) + k % 8;
    }
  }

  /** Whether every byte of the body is marked, by comparing whole bytes of the mask. */
  method AllMarked(mask: array<bv8>, len: nat) returns (full: bool)
    requires mask.Length == (len + 7) / 8
    requires forall k :: len <= k < 8 * mask.Length ==> !Marked(mask[..], k)
    ensures full <==> forall k :: 0 <= k < len ==> Marked(mask[..], k)
  {
    hide BitOf, BitRange, Marked;
    var i := 0;
    while i < len / 8
      invariant 0 <= i <= len / 8
      invariant forall k :: 0 <= k < 8 * i ==> Marked(mask[..], k)
    {
      ByteFull(mask[..], i, 8);
      if mask[i] != 0xFF {
        return false;
      }
      i := i + 1;
    }
    if len % 8 != 0 {
      ByteFull(mask[..], i, len % 8);
      if mask[i] != BitRange(0, len % 8) {
        return false;
      }
    }
    assert len == 8 * i + len % 8;
    return true;
  }

  lemma MarkedAt(mask: seq<bv8>, i: nat, k: nat)
    requires i < |mask| && k < 8
    ensures Marked(mask, 8 * i + k) <==> BitOf(mask[i], k)
  {
    assert (8 * i + k) / 8 == i && (8 * i + k) % 8 == k;
  }

  lemma LowOnes(b: bv8, n: nat)
    requires n <= 8 && forall k :: n <= k < 8 ==> !BitOf(b, k)
    ensures b == BitRange(0, n) <==> forall k :: 0 <= k < n ==> BitOf(b, k)
  {
    hide BitOf, BitRange;
    forall k | 0 <= k < 8
      ensures BitOf(BitRange(0, n), k) <==> k < n
    {
      BitRangeBits(0, n, k);
    }
    if forall k :: 0 <= k < n ==> BitOf(b, k) {
      SameByte(b, BitRange(0, n));
    }
  }

  /** A byte of the mask with nothing above bit `n` equals the low `n` ones exactly when all of those are set. */
  lemma ByteFull(mask: seq<bv8>, i: nat, n: nat)
    requires i < |mask| && n <= 8
    requires forall k :: 8 * i + n <= k < 8 * i + 8 ==> !Marked(mask, k)
    ensures mask[i] == BitRange(0, n) <==> forall k :: 8 * i <= k < 8 * i + n ==> Marked(mask, k)
    ensures n == 8 ==> BitRange(0, n) == 0xFF
  {
    hide BitOf, BitRange, Marked;
    FullByte();
    forall k | 0 <= k < 8
      ensures BitOf(mask[i], k) <==> Marked(mask, 8 * i + k)
    {
      MarkedAt(mask, i, k);
    }
    LowOnes(mask[i], n);
    forall k | 8 * i <= k < 8 * i + n
      ensures Marked(mask, k) <==> BitOf(mask[i], k - 8 * i)
    {
      MarkedAt(mask, i, k - 8 * i);
    }
  }
}
