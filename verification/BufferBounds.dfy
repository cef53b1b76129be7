/** The indices that one call of the range cache uses on its copies of the bitmap. Both copies are sized from the origin,
    the block numbers come from the request, and neither loop compares the two. */
module BufferBounds {
  import opened BlockMath
  import opened Files
  import Bitmap

  /** What becomes of a call from the re-check on, if reads, writes and allocations work. */
  datatype Outcome =
    | Found       // the re-check found all bits set
    | Refused     // the origin is empty, or the span to fetch is
    | Recorded    // fetched, and the bits set
    | Outside     // a byte outside a buffer was read or written

  /** The outcome with the given bitmap in the buffer of the re-check. */
  function Trip(bitmap: Bytes, r: Request, size: nat): Outcome
    requires 0 < r.length
  {
    if size == 0 then Refused
    else if Bitmap.LeavesArray(bitmap, r.FirstBlock(), r.LastBlock()) then Outside
    else if Bitmap.AllSet(bitmap, r.FirstBlock(), r.LastBlock()) then Found
    else if BlockEnd(r.LastBlock(), size) <= BlockStart(r.FirstBlock()) then Refused
    else if r.LastBlock() / 8 >= |bitmap| then Outside
    else Recorded
  }

  /** The re-check, the test of the span, and the merge, on the two buffers of a call. */
  method RecheckAndRecord(recheck: array<bv8>, merge: array<bv8>, r: Request, size: nat) returns (outcome: Outcome)
    requires 0 < r.length && recheck.Length == merge.Length && recheck != merge
    modifies merge
    ensures outcome == Trip(recheck[..], r, size)
    ensures outcome == Recorded ==> merge[..] == Bitmap.SetRange(old(merge[..]), r.FirstBlock(), r.LastBlock())
    ensures outcome == Found || outcome == Refused ==> merge[..] == old(merge[..])
  {
    if size == 0 {
      return Refused;
    }
    Bitmap.AllSetIsSubset(recheck[..], r.FirstBlock(), r.LastBlock());
    var walk := Bitmap.BlocksSet(recheck, r.FirstBlock(), r.LastBlock());
    if walk == Bitmap.Outside {
      return Outside;
    }
    if walk == Bitmap.AllBitsSet {
      return Found;
    }
    var spanOff := r.FirstBlock() * BLOCK_SIZE;
    var spanEnd := (r.LastBlock() + 1) * BLOCK_SIZE;
    if spanEnd > size {
      spanEnd := size;
    }
    if spanEnd <= spanOff {
      return Refused;
    }
    var inside := Bitmap.SetBlocks(merge, r.FirstBlock(), r.LastBlock());
    return if inside then Recorded else Outside;
  }

  /** A span is refused exactly when its first block is not one of the origin. */
  lemma RefusedIff(r: Request, size: nat)
    requires 0 < r.length
    ensures BlockEnd(r.LastBlock(), size) <= BlockStart(r.FirstBlock()) <==> size <= BlockStart(r.FirstBlock())
  {
    FirstBeforeLast(r);
  }

  /** Exactly when a call leaves a buffer, for every request and every bitmap: the request ends past the blocks that the
      bitmap's bytes can hold, and either it starts in a block of the origin (so that the span is fetched and the merge
      writes outside), or the bitmap has every bit from the first block to its end (so that the re-check reads on). */
  lemma BufferLeftIff(bitmap: Bytes, r: Request, size: nat)
    requires 0 < r.length && |bitmap| == BitmapBytes(NumBlocks(size))
    ensures Trip(bitmap, r, size) == Outside
       <==> && 0 < size && r.End() > 8 * |bitmap| * BLOCK_SIZE
            && (BlockStart(r.FirstBlock()) < size
                || Bitmap.AllSet(bitmap, r.FirstBlock(), 8 * |bitmap| - 1))
  {
    if 0 < size {
      LastIndexInsideIff(r, size);
      FirstBeforeLast(r);
      RefusedIff(r, size);
      BitmapCoversOrigin(size, r.FirstBlock());
      var first, last, edge := r.FirstBlock(), r.LastBlock(), 8 * |bitmap|;
      if last >= edge {
        assert !Bitmap.Bit(bitmap, last);
        assert !Bitmap.AllSet(bitmap, first, last);
        assert Bitmap.LeavesArray(bitmap, first, last) <==> Bitmap.AllSet(bitmap, first, edge - 1);
      }
    }
  }

  /** A bitmap that has bits of the origin's blocks only is left exactly by the requests that end past its bytes and start
      in a block of the origin or past its bytes. */
  lemma CleanBufferLeftIff(bitmap: Bytes, r: Request, size: nat)
    requires 0 < r.length && |bitmap| == BitmapBytes(NumBlocks(size))
    requires forall b: nat | Bitmap.Bit(bitmap, b) :: b < NumBlocks(size)
    ensures Trip(bitmap, r, size) == Outside
       <==> && 0 < size && r.End() > 8 * |bitmap| * BLOCK_SIZE
            && (r.FirstBlock() < NumBlocks(size) || r.FirstBlock() >= 8 * |bitmap|)
  {
    BufferLeftIff(bitmap, r, size);
    BitmapCoversOrigin(size, r.FirstBlock());
    var first, edge := r.FirstBlock(), 8 * |bitmap|;
    if NumBlocks(size) <= first < edge {
      assert !Bitmap.Bit(bitmap, first);
    }
  }

  /** The other outcomes, exactly: found when all blocks of the request are in the buffer; refused for an empty origin, and
      for a request that starts past the origin's last block, if it was not found and left no buffer. */
  lemma TripIff(bitmap: Bytes, r: Request, size: nat)
    requires 0 < r.length
    ensures var found := Bitmap.Run(r.FirstBlock(), r.LastBlock()) <= Bitmap.BlockSet(bitmap);
      && (Trip(bitmap, r, size) == Found <==> 0 < size && found)
      && (Trip(bitmap, r, size) == Refused
          <==> size == 0 || (size <= BlockStart(r.FirstBlock()) && !found && Trip(bitmap, r, size) != Outside))
  {
    Bitmap.AllSetIsSubset(bitmap, r.FirstBlock(), r.LastBlock());
    RefusedIff(r, size);
    if Bitmap.AllSet(bitmap, r.FirstBlock(), r.LastBlock()) {
      Bitmap.SetBitsAreInside(bitmap, r.FirstBlock(), r.LastBlock());
    }
  }

  /** A request inside the origin never leaves a buffer, whatever the bitmap is. */
  lemma InRangeStaysInside(bitmap: Bytes, r: Request, size: nat)
    requires 0 < r.length && r.InRange(size) && |bitmap| == BitmapBytes(NumBlocks(size))
    ensures Trip(bitmap, r, size) == Found || Trip(bitmap, r, size) == Recorded
  {
    RequestBlocks(r, size);
    LastIndexInsideIff(r, size);
    BufferLeftIff(bitmap, r, size);
    RefusedIff(r, size);
  }

  /** Two requests on an origin of one block, whose bitmap has one byte. The first one asks for nine blocks from the
      start, and its merge writes the second byte. The second one starts at the third block: its last block has no byte
      either, but the re-check stops at a clear bit, and the fetch refuses. */
  lemma PastTheOrigin()
    ensures Trip([0], Request(0, 9 * BLOCK_SIZE), BLOCK_SIZE) == Outside
    ensures Trip([0], Request(2 * BLOCK_SIZE, 10 * BLOCK_SIZE), BLOCK_SIZE) == Refused
  {
    forall b: nat
      ensures !Bitmap.Bit([0], b)
    {
      assert b / 8 < 1 ==> [0 as bv8][b / 8] == 0;
    }
    CleanBufferLeftIff([0], Request(0, 9 * BLOCK_SIZE), BLOCK_SIZE);
    CleanBufferLeftIff([0], Request(2 * BLOCK_SIZE, 10 * BLOCK_SIZE), BLOCK_SIZE);
    assert !Bitmap.Bit([0], Request(2 * BLOCK_SIZE, 10 * BLOCK_SIZE).FirstBlock());
  }
}
