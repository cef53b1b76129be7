/** Block arithmetic of the range cache: how a byte range maps to blocks, how many blocks and bitmap bytes an
    origin file needs, and which bytes a block-aligned fetch moves. */
module BlockMath {

  const BLOCK_SIZE: nat := 65536

  /** range_cache_num_blocks: blocks needed for a file, the last one possibly partial. */
  function NumBlocks(fileSize: nat): nat {
    (fileSize + BLOCK_SIZE - 1) / BLOCK_SIZE
  }

  /** range_cache_bitmap_bytes: one bit per block. */
  function BitmapBytes(numBlocks: nat): nat {
    (numBlocks + 7) / 8
  }

  /** A byte-range request as it reaches dyad_range_cache_ensure. */
  datatype Request = Request(offset: nat, length: nat) {
    predicate InRange(originSize: nat) {
      offset + length <= originSize
    }

    function End(): nat {
      offset + length
    }

    function FirstBlock(): nat {
      offset / BLOCK_SIZE
    }

    function LastBlock(): nat
      requires 0 < length
    {
      (offset + length - 1) / BLOCK_SIZE
    }
  }

  function Min(a: nat, b: nat): nat {
    if a < b then a else b
  }

  /** First byte of block b. */
  function BlockStart(b: nat): nat {
    b * BLOCK_SIZE
  }

  /** One past the last byte of block b, clamped at the end of a file of the given size. */
  function BlockEnd(b: nat, size: nat): nat {
    Min((b + 1) * BLOCK_SIZE, size)
  }

  /** Every block of the origin has its own bit, and no block lies outside the origin. */
  lemma BitmapCoversOrigin(size: nat, b: nat)
    ensures b < NumBlocks(size) <==> BlockStart(b) < size
    ensures b < NumBlocks(size) ==> b / 8 < BitmapBytes(NumBlocks(size))
  {
  }

  /** And the bitmap has no byte too many: each of its bytes has the bit of some block of the origin. */
  lemma BitmapBytesIff(size: nat, k: nat)
    ensures k < BitmapBytes(NumBlocks(size)) <==> 8 * k * 65536 < size
  {
    assert k < BitmapBytes(NumBlocks(size)) <==> 8 * k < NumBlocks(size);
    BitmapCoversOrigin(size, 8 * k);
  }

  lemma FirstBeforeLast(r: Request)
    requires 0 < r.length
    ensures r.FirstBlock() <= r.LastBlock()
  {
  }

  /** An in-range request touches only blocks of the origin, so its bits are inside the bitmap. */
  lemma RequestBlocks(r: Request, size: nat)
    requires 0 < r.length && r.InRange(size)
    ensures r.FirstBlock() <= r.LastBlock() < NumBlocks(size)
    ensures r.LastBlock() / 8 < BitmapBytes(NumBlocks(size))
  {
    BitmapCoversOrigin(size, r.LastBlock());
  }

  /** The blocks of a request are exactly those that have a byte in common with it. */
  lemma RequestBlocksIff(r: Request, b: nat)
    requires 0 < r.length
    ensures r.FirstBlock() <= b <= r.LastBlock()
       <==> b * 65536 < r.offset + r.length && r.offset < (b + 1) * 65536
  {
  }

  /** The byte of a request's last block is inside a bitmap sized from the origin exactly when the request ends within
      the blocks that the bitmap's bytes can hold. */
  lemma LastIndexInsideIff(r: Request, size: nat)
    requires 0 < r.length
    ensures r.LastBlock() / 8 < BitmapBytes(NumBlocks(size))
       <==> r.offset + r.length <= 8 * BitmapBytes(NumBlocks(size)) * BLOCK_SIZE
  {
    var bytes := BitmapBytes(NumBlocks(size));
    assert r.LastBlock() / 8 < bytes <==> r.LastBlock() < 8 * bytes;
    assert r.LastBlock() < 8 * bytes <==> r.offset + r.length - 1 < 8 * bytes * BLOCK_SIZE;
  }

  /** The fetched span covers the request, stays inside the origin, is not empty, and exceeds the request by at most
      two blocks minus two bytes. */
  lemma SpanCoversRequest(r: Request, size: nat)
    requires 0 < r.length && r.InRange(size)
    ensures BlockStart(r.FirstBlock()) <= r.offset
    ensures r.offset + r.length <= BlockEnd(r.LastBlock(), size) <= size
    ensures BlockEnd(r.LastBlock(), size) - BlockStart(r.FirstBlock()) <= r.length + 2 * BLOCK_SIZE - 2
  {
  }

  /** Every block of the request lies inside the span that the fetch moves. */
  lemma BlockInSpan(r: Request, size: nat, b: nat)
    requires 0 < r.length && r.InRange(size)
    requires r.FirstBlock() <= b <= r.LastBlock()
    ensures BlockStart(r.FirstBlock()) <= BlockStart(b)
    ensures BlockEnd(b, size) <= BlockEnd(r.LastBlock(), size)
  {
  }

  /** Every byte of the request lies inside one of the request's blocks. */
  lemma ByteInBlock(r: Request, size: nat, i: nat)
    requires 0 < r.length && r.InRange(size)
    requires r.offset <= i < r.offset + r.length
    ensures r.FirstBlock() <= i / BLOCK_SIZE <= r.LastBlock()
    ensures BlockStart(i / BLOCK_SIZE) <= i < BlockEnd(i / BLOCK_SIZE, size)
  {
  }
}
