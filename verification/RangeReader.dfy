/** The worker's chunked read of a clamped byte range, on a file that holds still. (RangeCache.ReadChunk is the same
    loop taken one read at a time while the file is being filled.) */
module RangeReader {
  import opened BlockMath
  import opened Files
  import opened RangeCache

  /** Bytes of [offset, offset+length) that a file of the given size has. */
  function Clamp(offset: nat, length: nat, size: nat): (n: nat)
    ensures n <= length
    ensures n < length ==> offset + n == size || (n == 0 && size < offset)
    ensures 0 < n ==> offset + n <= size
  {
    if offset >= size then 0 else if offset + length > size then size - offset else length
  }

  /** What the k-th pread of at most `want` bytes returns: any number up to what was asked for. A read that returns
      nothing is a failure. */
  function Got(counts: seq<nat>, k: nat, want: nat): (n: nat)
    ensures n <= want
  {
    if k < |counts| && counts[k] < want then counts[k] else want
  }

  /** Bytes that the first k reads of a range bring. */
  function ReadBy(counts: seq<nat>, rangeLen: nat, k: nat): (n: nat)
    ensures n <= rangeLen
  {
    if k == 0 then 0
    else
      var before := ReadBy(counts, rangeLen, k - 1);
      before + Got(counts, k - 1, Min(rangeLen - before, TRANSFER_GRANULARITY))
  }

  lemma {:induction false} ReadByGrows(counts: seq<nat>, rangeLen: nat, j: nat, k: nat)
    requires j <= k
    ensures ReadBy(counts, rangeLen, j) <= ReadBy(counts, rangeLen, k)
  {
    if j < k {
      ReadByGrows(counts, rangeLen, j, k - 1);
    }
  }

  method LoadRange(file: Bytes, offset: nat, length: nat, inbuf: array<bv8>, counts: seq<nat>)
    returns (ok: bool, rangeLen: nat)
    requires inbuf.Length == length
    modifies inbuf
    ensures rangeLen == Clamp(offset, length, |file|)
    ensures ok ==> inbuf[..rangeLen] == (if rangeLen == 0 then [] else file[offset..offset + rangeLen])
    ensures inbuf[rangeLen..] == old(inbuf[rangeLen..])
    // it fails exactly when some read brings nothing before the range is complete
    ensures !ok <==> exists k | 0 <= k < |counts| :: counts[k] == 0 && ReadBy(counts, rangeLen, k) < rangeLen
  {
    rangeLen := if offset >= |file| then 0
                else if offset + length > |file| then |file| - offset
                else length;
    var readData, k := 0, 0;
    while readData < rangeLen
      invariant readData == ReadBy(counts, rangeLen, k) <= rangeLen
      invariant forall j | 0 <= j < k && j < |counts| :: counts[j] != 0
      invariant forall i | 0 <= i < readData :: inbuf[i] == file[offset + i]
      invariant inbuf[rangeLen..] == old(inbuf[rangeLen..])
      decreases rangeLen - readData
    {
      var readSize := if rangeLen - readData > TRANSFER_GRANULARITY then TRANSFER_GRANULARITY else rangeLen - readData;
      var inlen := Got(counts, k, readSize);
      if inlen == 0 {
        assert counts[k] == 0 && ReadBy(counts, rangeLen, k) < rangeLen;
        return false, rangeLen;
      }
      forall i | 0 <= i < inlen {
        inbuf[readData + i] := file[offset + readData + i];
      }
      readData, k := readData + inlen, k + 1;
    }
    forall j | k <= j < |counts|
      ensures ReadBy(counts, rangeLen, j) == rangeLen
    {
      ReadByGrows(counts, rangeLen, k, j);
    }
    ok := true;
  }
}
