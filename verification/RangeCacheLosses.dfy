/** Two runs from the start that lose a recorded block: one without the lock, and one with it whose merge reads nothing
    of the bitmap, which the code does not notice. */
module RangeCacheLosses {
  import opened BlockMath
  import opened Files
  import opened RangeCache
  import opened RangeCacheProofs
  import opened RangeCacheRuns
  import opened RangeCacheSolo
  import Bitmap

  /** Requests for the first two blocks of an origin. */
  const FIRST := Request(0, 1)
  const SECOND := Request(BLOCK_SIZE, 1)

  lemma TwoBlocks(size: nat)
    requires size > BLOCK_SIZE
    ensures FIRST.InRange(size) && FIRST.FirstBlock() == 0 == FIRST.LastBlock()
    ensures SECOND.InRange(size) && SECOND.FirstBlock() == 1 == SECOND.LastBlock()
    ensures 0 < BitmapBytes(NumBlocks(size))
  {
  }

  lemma ClearMisses(bitmap: Bytes, b: nat)
    requires !Bitmap.Bit(bitmap, b)
    ensures !Bitmap.AllSet(bitmap, b, b)
  {
  }

  /** The file's bitmap has the bit of the first block. */
  predicate FirstOnRecord(s: State) {
    0 in s.bitmaps && Bitmap.Bit(s.bitmaps[0], 0)
  }

  /** With the lock, but with a merge whose read returns nothing, there is a run in which a caller returns OK with its
      block on record, and the block is lost afterwards. */
  lemma ShortReadLoses(start: State) returns (before: seq<Step>, later: seq<Step>)
    requires Init(start) && |start.origin| > BLOCK_SIZE
    ensures Legal(true, start, before) && Legal(true, After(true, start, before), later)
    ensures var s := After(true, start, before);
      0 in s.calls && s.calls[0].phase == Ready(Some(0)) && FirstOnRecord(s)
    ensures var t := After(true, After(true, start, before), later);
      0 in t.calls && t.calls[0].phase == Ready(Some(0)) && !FirstOnRecord(t)
  {
    TwoBlocks(|start.origin|);
    ClearMisses(BitmapOf(start, 0), 0);
    var fetch := FetchedRuns(true, start, 0, FIRST, 0);
    var s1 := After(true, start, fetch);
    var size := s1.BitmapSize();
    MergingRuns(true, s1, 0, FIRST, 0, size);
    var s2 := After(true, s1, Merging3(0, size, size));
    Concat(true, start, fetch, Merging3(0, size, size));
    before := fetch + Merging3(0, size, size);
    MergeBits(s1.bitmaps[0], size, FIRST, 0);
    MergeBits(s1.bitmaps[0], size, FIRST, 1);
    ClearMisses(BitmapOf(s2, 0), 1);
    var fetch2 := FetchedRuns(true, s2, 1, SECOND, 0);
    var s3 := After(true, s2, fetch2);
    MergingRuns(true, s3, 1, SECOND, 0, 0);
    Concat(true, s2, fetch2, Merging3(1, 0, size));
    later := fetch2 + Merging3(1, 0, size);
    MergeBits(s3.bitmaps[0], 0, SECOND, 0);
  }

  /** Two calls on one bitmap file. */
  function Two(first: Phase, second: Phase): map<nat, Call> {
    map[0 := Call(FIRST, first), 1 := Call(SECOND, second)]
  }

  predicate Ripe(s: State) {
    |s.origin| > BLOCK_SIZE && 0 in s.bitmaps && |s.bitmaps[0]| == s.BitmapSize()
  }

  lemma BothLock(s: State)
    requires Ripe(s) && s.owner == map[] && s.calls == Two(Fetched(0), Fetched(0))
    ensures Legal(false, s, [Lock(0), Lock(1)])
    ensures After(false, s, [Lock(0), Lock(1)]) == s.(owner := map[0 := 1], calls := Two(Merging(0), Merging(0)))
  {
    var s1 := Apply(s, Lock(0));
    assert s1 == s.(owner := map[0 := 0], calls := Two(Merging(0), Fetched(0)));
    One(false, s1, Lock(1));
    Chain(false, s, Lock(0), [Lock(1)]);
  }

  lemma BothRead(s: State, size: nat)
    requires Ripe(s) && size == s.BitmapSize() && s.calls == Two(Merging(0), Merging(0))
    ensures 0 < size
    ensures Legal(false, s, [MergeRead(0, size), MergeRead(1, size)])
    ensures After(false, s, [MergeRead(0, size), MergeRead(1, size)])
         == s.(calls := Two(Merged(0, MergeBuffer(s.bitmaps[0], size, FIRST), size),
                            Merged(0, MergeBuffer(s.bitmaps[0], size, SECOND), size)))
  {
    TwoBlocks(|s.origin|);
    MergeReadStep(s, 0, FIRST, 0, size);
    var s1 := Apply(s, MergeRead(0, size));
    MergeReadStep(s1, 1, SECOND, 0, size);
    assert s1 == s.(calls := Two(Merged(0, MergeBuffer(s.bitmaps[0], size, FIRST), size), Merging(0)));
    One(false, s1, MergeRead(1, size));
    Chain(false, s, MergeRead(0, size), [MergeRead(1, size)]);
  }

  lemma FirstWrite(s: State, a: Bytes, b: Bytes)
    requires Ripe(s) && |a| == s.BitmapSize() && s.calls == Two(Merged(0, a, |a|), Merged(0, b, |a|))
    ensures Legal(false, s, [MergeWrite(0, |a|)])
    ensures var t := After(false, s, [MergeWrite(0, |a|)]);
      && t.origin == s.origin && t.bitmaps == s.bitmaps[0 := a] && t.calls == Two(Ready(Some(0)), Merged(0, b, |a|))
  {
    WholeWrite(s.bitmaps[0], a);
    One(false, s, MergeWrite(0, |a|));
  }

  /** Both callers read the whole bitmap before either writes it. */
  function Crossing(size: nat): seq<Step> {
    [Lock(0), Lock(1)] + ([MergeRead(0, size), MergeRead(1, size)] + [MergeWrite(0, size)])
  }

  lemma CrossingRuns(s: State, size: nat)
    requires Ripe(s) && size == s.BitmapSize() && s.owner == map[] && s.calls == Two(Fetched(0), Fetched(0))
    ensures 0 < size && Legal(false, s, Crossing(size))
    ensures var t := After(false, s, Crossing(size));
      && t.origin == s.origin && t.bitmaps == s.bitmaps[0 := MergeBuffer(s.bitmaps[0], size, FIRST)]
      && t.calls == Two(Ready(Some(0)), Merged(0, MergeBuffer(s.bitmaps[0], size, SECOND), size))
  {
    TwoBlocks(|s.origin|);
    BothLock(s);
    var s1 := After(false, s, [Lock(0), Lock(1)]);
    BothRead(s1, size);
    var s2 := After(false, s1, [MergeRead(0, size), MergeRead(1, size)]);
    FirstWrite(s2, MergeBuffer(s.bitmaps[0], size, FIRST), MergeBuffer(s.bitmaps[0], size, SECOND));
    Concat(false, s1, [MergeRead(0, size), MergeRead(1, size)], [MergeWrite(0, size)]);
    Concat(false, s, [Lock(0), Lock(1)], [MergeRead(0, size), MergeRead(1, size)] + [MergeWrite(0, size)]);
  }

  lemma LastWrite(s: State, bitmap: Bytes)
    requires Ripe(s) && |bitmap| == s.BitmapSize() && s.calls == Two(Ready(Some(0)), Merged(0, bitmap, |bitmap|))
    ensures Legal(false, s, [MergeWrite(1, |bitmap|)])
    ensures var t := After(false, s, [MergeWrite(1, |bitmap|)]);
      0 in t.bitmaps && t.bitmaps[0] == bitmap && 0 in t.calls && t.calls[0].phase == Ready(Some(0))
  {
    TwoBlocks(|s.origin|);
    WholeWrite(s.bitmaps[0], bitmap);
    One(false, s, MergeWrite(1, |bitmap|));
  }

  /** Without the lock the merge loses updates: there is a run in which a caller returns OK with its block on record, and
      the block is lost with the next step. Every read and write of the run is complete. */
  lemma UnlockedMergeLoses(start: State) returns (before: seq<Step>, later: seq<Step>)
    requires Init(start) && |start.origin| > BLOCK_SIZE
    ensures Legal(false, start, before) && Legal(false, After(false, start, before), later)
    ensures var s := After(false, start, before);
      0 in s.calls && s.calls[0].phase == Ready(Some(0)) && FirstOnRecord(s)
    ensures var t := After(false, After(false, start, before), later);
      0 in t.calls && t.calls[0].phase == Ready(Some(0)) && !FirstOnRecord(t)
  {
    TwoBlocks(|start.origin|);
    ClearMisses(BitmapOf(start, 0), 0);
    var fetch0 := FetchedRuns(false, start, 0, FIRST, 0);
    var s1 := After(false, start, fetch0);
    ClearMisses(BitmapOf(s1, 0), 1);
    var fetch1 := FetchedRuns(false, s1, 1, SECOND, 0);
    var s2 := After(false, s1, fetch1);
    var size := s2.BitmapSize();
    assert s2.calls == Two(Fetched(0), Fetched(0));
    CrossingRuns(s2, size);
    var s3 := After(false, s2, Crossing(size));
    LastWrite(s3, MergeBuffer(s2.bitmaps[0], size, SECOND));
    Concat(false, start, fetch0, fetch1);
    Concat(false, start, fetch0 + fetch1, Crossing(size));
    before, later := fetch0 + fetch1 + Crossing(size), [MergeWrite(1, size)];
    MergeBits(s2.bitmaps[0], size, FIRST, 0);
    MergeBits(s2.bitmaps[0], size, SECOND, 0);
  }
}
