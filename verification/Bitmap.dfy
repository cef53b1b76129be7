/** The on-disk bitmap: a byte array with one bit per block, and the two loops that test and set a run of bits. */
module Bitmap {

  function Mask(i: nat): bv8
    requires i < 8
  {
    (1 as bv8) << i
  }

  /** The bit of block b; blocks past the end of the array read as clear. */
  predicate Bit(bitmap: seq<bv8>, b: nat) {
    b / 8 < |bitmap| && bitmap[b / 8] & Mask(b % 8) != 0
  }

  /** Within a byte, blocks go from the least significant bit to the most significant one. */
  lemma BitPlace(bitmap: seq<bv8>, b: nat)
    requires b / 8 < |bitmap|
    ensures Bit(bitmap, b) <==> (bitmap[b / 8] >> (b % 8)) & 1 == 1
  {
    MaskPlace(bitmap[b / 8], b % 8);
  }

  lemma MaskPlace(x: bv8, i: nat)
    requires i < 8
    ensures x & Mask(i) != 0 <==> (x >> i) & 1 == 1
  {
    Masks();
    Bits(x);
  }

  lemma Bits(x: bv8)
    ensures (x & 1 != 0 <==> (x >> 0) & 1 == 1) && (x & 2 != 0 <==> (x >> 1) & 1 == 1)
    ensures (x & 4 != 0 <==> (x >> 2) & 1 == 1) && (x & 8 != 0 <==> (x >> 3) & 1 == 1)
    ensures (x & 16 != 0 <==> (x >> 4) & 1 == 1) && (x & 32 != 0 <==> (x >> 5) & 1 == 1)
    ensures (x & 64 != 0 <==> (x >> 6) & 1 == 1) && (x & 128 != 0 <==> (x >> 7) & 1 == 1)
  {
  }

  lemma Masks()
    ensures Mask(0) == 1 && Mask(1) == 2 && Mask(2) == 4 && Mask(3) == 8
    ensures Mask(4) == 16 && Mask(5) == 32 && Mask(6) == 64 && Mask(7) == 128
  {
  }

  /** The set of blocks that a bitmap stands for. */
  function BlockSet(bitmap: seq<bv8>): set<nat> {
    set b: nat | b < 8 * |bitmap| && Bit(bitmap, b)
  }

  function SetBit(bitmap: seq<bv8>, b: nat): seq<bv8>
    requires b / 8 < |bitmap|
  {
    bitmap[b / 8 := bitmap[b / 8] | Mask(b % 8)]
  }

  lemma MaskBits(x: bv8, i: nat, j: nat)
    requires i < 8 && j < 8
    ensures ((x | Mask(i)) & Mask(j) != 0) <==> (i == j || x & Mask(j) != 0)
  {
    Masks();
  }

  lemma SetBitBits(bitmap: seq<bv8>, b: nat, c: nat)
    requires b / 8 < |bitmap|
    ensures Bit(SetBit(bitmap, b), c) <==> c == b || Bit(bitmap, c)
  {
    if c / 8 == b / 8 {
      MaskBits(bitmap[b / 8], b % 8, c % 8);
    }
  }

  /** What range_cache_set_blocks leaves in the array. */
  function SetRange(bitmap: seq<bv8>, first: nat, last: nat): (r: seq<bv8>)
    requires last / 8 < |bitmap|
    ensures |r| == |bitmap|
    decreases last + 1 - first
  {
    if first > last then bitmap else SetRange(SetBit(bitmap, first), first + 1, last)
  }

  lemma {:induction false} SetRangeBits(bitmap: seq<bv8>, first: nat, last: nat, c: nat)
    requires last / 8 < |bitmap|
    ensures Bit(SetRange(bitmap, first, last), c) <==> first <= c <= last || Bit(bitmap, c)
    decreases last + 1 - first
  {
    if first <= last {
      SetRangeBits(SetBit(bitmap, first), first + 1, last, c);
      SetBitBits(bitmap, first, c);
    }
  }

  /** The blocks first..last, both included. */
  function Run(first: nat, last: nat): (r: set<nat>)
    ensures forall b: nat :: b in r <==> first <= b <= last
    decreases last + 1 - first
  {
    if first > last then {} else {first} + Run(first + 1, last)
  }

  /** Setting a run of bits is set union. */
  lemma SetRangeIsUnion(bitmap: seq<bv8>, first: nat, last: nat)
    requires last / 8 < |bitmap|
    ensures BlockSet(SetRange(bitmap, first, last)) == BlockSet(bitmap) + Run(first, last)
  {
    forall c: nat
      ensures c in BlockSet(SetRange(bitmap, first, last)) <==> c in BlockSet(bitmap) + Run(first, last)
    {
      SetRangeBits(bitmap, first, last, c);
    }
  }

  /** All bits of a run are set. */
  predicate AllSet(bitmap: seq<bv8>, first: nat, last: nat) {
    forall b: nat | first <= b <= last :: Bit(bitmap, b)
  }

  /** Testing a run of bits is subset. */
  lemma AllSetIsSubset(bitmap: seq<bv8>, first: nat, last: nat)
    ensures AllSet(bitmap, first, last) <==> Run(first, last) <= BlockSet(bitmap)
  {
    if AllSet(bitmap, first, last) {
      forall b | b in Run(first, last)
        ensures b in BlockSet(bitmap)
      {
        assert Bit(bitmap, b);
      }
    }
    if Run(first, last) <= BlockSet(bitmap) {
      forall b: nat | first <= b <= last
        ensures Bit(bitmap, b)
      {
        assert b in Run(first, last);
      }
    }
  }

  /** What testing a run of bits comes to: neither loop compares its index with the size of the array. */
  datatype Walk = AllBitsSet | ClearBit | Outside

  /** Testing first..last bit by bit gets to a byte outside the array before it finds a clear bit. */
  predicate LeavesArray(bitmap: seq<bv8>, first: nat, last: nat) {
    var edge := if first < 8 * |bitmap| then 8 * |bitmap| else first;
    edge <= last && forall b: nat | first <= b < edge :: Bit(bitmap, b)
  }

  lemma ClearBitStops(bitmap: seq<bv8>, first: nat, last: nat, b: nat)
    requires first <= b <= last && b / 8 < |bitmap| && !Bit(bitmap, b)
    ensures !AllSet(bitmap, first, last) && !LeavesArray(bitmap, first, last)
  {
    assert b < 8 * |bitmap|;
  }

  lemma SetBitsAreInside(bitmap: seq<bv8>, first: nat, last: nat)
    requires AllSet(bitmap, first, last)
    ensures !LeavesArray(bitmap, first, last)
  {
    var edge := if first < 8 * |bitmap| then 8 * |bitmap| else first;
    assert !Bit(bitmap, edge);
  }

  /** range_cache_blocks_set */
  method BlocksSet(bitmap: array<bv8>, first: nat, last: nat) returns (walk: Walk)
    ensures walk == AllBitsSet <==> Run(first, last) <= BlockSet(bitmap[..])
    ensures walk == Outside <==> LeavesArray(bitmap[..], first, last)
  {
    AllSetIsSubset(bitmap[..], first, last);
    var b := first;
    while b <= last
      invariant first <= b
      invariant b <= last + 1 || b == first
      invariant forall c: nat | first <= c < b :: Bit(bitmap[..], c)
    {
      if b / 8 >= bitmap.Length {
        assert b > first ==> Bit(bitmap[..], b - 1);
        assert !Bit(bitmap[..], b) && !AllSet(bitmap[..], first, last);
        return Outside;
      }
      if bitmap[b / 8] & Mask(b % 8) == 0 {
        ClearBitStops(bitmap[..], first, last, b);
        return ClearBit;
      }
      b := b + 1;
    }
    SetBitsAreInside(bitmap[..], first, last);
    return AllBitsSet;
  }

  /** range_cache_set_blocks; false when it writes outside the array. */
  method SetBlocks(bitmap: array<bv8>, first: nat, last: nat) returns (inside: bool)
    modifies bitmap
    ensures inside <==> first > last || last / 8 < bitmap.Length
    ensures last / 8 < bitmap.Length ==>
              && bitmap[..] == SetRange(old(bitmap[..]), first, last)
              && BlockSet(bitmap[..]) == BlockSet(old(bitmap[..])) + Run(first, last)
  {
    ghost var was := bitmap[..];
    var b := first;
    while b <= last
      invariant first <= b
      invariant b <= last + 1 || b == first
      invariant b > first ==> (b - 1) / 8 < bitmap.Length
      invariant last / 8 < bitmap.Length ==> SetRange(bitmap[..], b, last) == SetRange(was, first, last)
    {
      if b / 8 >= bitmap.Length {
        return false;
      }
      ghost var now := bitmap[..];
      bitmap[b / 8] := bitmap[b / 8] | Mask(b % 8);
      assert bitmap[..] == SetBit(now, b);
      b := b + 1;
    }
    if last / 8 < bitmap.Length {
      SetRangeIsUnion(was, first, last);
    }
    return true;
  }
}
