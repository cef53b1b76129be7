/** One call of the range cache by itself: what it comes to when nobody else takes a step and nothing fails. A call whose
    blocks are all on record returns at once; any other fetches its span, records its blocks and returns; and what is read
    back is the origin's range. */
module RangeCacheSolo {
  import opened BlockMath
  import opened Files
  import opened RangeCache
  import opened RangeCacheProofs
  import opened RangeCacheRuns
  import Bitmap

  // ---------------------------------------------------------------- putting runs together

  lemma Chain(locked: bool, s: State, step: Step, rest: seq<Step>)
    requires Enabled(locked, s, step) && Enabled(false, s, step) && Legal(locked, Apply(s, step), rest)
    ensures Legal(locked, s, [step] + rest)
    ensures After(locked, s, [step] + rest) == After(locked, Apply(s, step), rest)
  {
    assert ([step] + rest)[1..] == rest;
  }

  lemma One(locked: bool, s: State, step: Step)
    requires Enabled(locked, s, step) && Enabled(false, s, step)
    ensures Legal(locked, s, [step]) && After(locked, s, [step]) == Apply(s, step)
  {
    assert [step][1..] == [];
  }

  lemma {:induction false} Concat(locked: bool, s: State, a: seq<Step>, b: seq<Step>)
    requires Legal(locked, s, a) && Legal(locked, After(locked, s, a), b)
    ensures Legal(locked, s, a + b) && After(locked, s, a + b) == After(locked, After(locked, s, a), b)
    decreases |a|
  {
    if a == [] {
      assert a + b == b;
    } else {
      assert (a + b)[1..] == a[1..] + b;
      Concat(locked, Apply(s, a[0]), a[1..], b);
    }
  }

  // ---------------------------------------------------------------- one call, up to the fetched span

  /** Nobody holds a lock, and bitmap file f is the one in use, or will be. */
  predicate Free(s: State, f: nat) {
    && s.owner == map[]
    && (s.name == Some(f) || (s.name == None && f !in s.bitmaps))
    && (s.name == Some(f) ==> f in s.bitmaps && (s.bitmaps[f] == [] || |s.bitmaps[f]| == s.BitmapSize()))
  }

  /** The bits of bitmap file f, which need not be there yet. */
  function BitmapOf(s: State, f: nat): Bytes {
    if f in s.bitmaps then s.bitmaps[f] else []
  }

  /** A call that starts, opens the bitmap, misses, and takes the lock. */
  function Opening(c: nat, r: Request, f: nat): seq<Step> {
    [Start(c, r), Open(c, f)] + [FastCheck(c, true), Lock(c)]
  }

  lemma OpenStep(s: State, c: nat, r: Request, f: nat)
    requires c in s.calls && s.calls[c] == Call(r, Begin) && 0 < r.length && Free(s, f)
    ensures Enabled(false, s, Open(c, f))
    ensures Apply(s, Open(c, f))
         == s.(bitmaps := s.bitmaps[f := BitmapOf(s, f)], name := Some(f), calls := s.calls[c := Call(r, Check(f))])
  {
    assert s.name.Some? ==> s.bitmaps[f := BitmapOf(s, f)] == s.bitmaps;
  }

  lemma MissStep(s: State, c: nat, r: Request, f: nat)
    requires c in s.calls && s.calls[c] == Call(r, Check(f)) && 0 < r.length && f in s.bitmaps
    requires !Bitmap.AllSet(s.bitmaps[f], r.FirstBlock(), r.LastBlock())
    ensures Enabled(false, s, FastCheck(c, true))
    ensures Apply(s, FastCheck(c, true)) == s.(calls := s.calls[c := Call(r, Miss(f))])
  {
  }

  lemma LockStep(s: State, c: nat, r: Request, f: nat)
    requires c in s.calls && s.calls[c] == Call(r, Miss(f)) && 0 < r.length && f in s.bitmaps && s.owner == map[]
    ensures Enabled(false, s, Lock(c))
    ensures Apply(s, Lock(c)) == s.(owner := map[f := c], calls := s.calls[c := Call(r, Sizing(f))])
  {
  }

  lemma StartAndOpen(locked: bool, s: State, c: nat, r: Request, f: nat)
    requires c !in s.calls && 0 < r.length && r.InRange(|s.origin|) && Free(s, f)
    ensures Legal(locked, s, [Start(c, r), Open(c, f)])
    ensures After(locked, s, [Start(c, r), Open(c, f)])
         == s.(bitmaps := s.bitmaps[f := BitmapOf(s, f)], name := Some(f), calls := s.calls[c := Call(r, Check(f))])
  {
    var s1 := Apply(s, Start(c, r));
    OpenStep(s1, c, r, f);
    One(locked, s1, Open(c, f));
    Chain(locked, s, Start(c, r), [Open(c, f)]);
    assert s.calls[c := Call(r, Begin)][c := Call(r, Check(f))] == s.calls[c := Call(r, Check(f))];
  }

  lemma MissAndLock(locked: bool, s: State, c: nat, r: Request, f: nat)
    requires c in s.calls && s.calls[c] == Call(r, Check(f)) && 0 < r.length && f in s.bitmaps && s.owner == map[]
    requires !Bitmap.AllSet(s.bitmaps[f], r.FirstBlock(), r.LastBlock())
    ensures Legal(locked, s, [FastCheck(c, true), Lock(c)])
    ensures After(locked, s, [FastCheck(c, true), Lock(c)])
         == s.(owner := map[f := c], calls := s.calls[c := Call(r, Sizing(f))])
  {
    MissStep(s, c, r, f);
    var s1 := Apply(s, FastCheck(c, true));
    LockStep(s1, c, r, f);
    One(locked, s1, Lock(c));
    Chain(locked, s, FastCheck(c, true), [Lock(c)]);
    assert s.calls[c := Call(r, Miss(f))][c := Call(r, Sizing(f))] == s.calls[c := Call(r, Sizing(f))];
  }

  lemma OpeningRuns(locked: bool, s: State, c: nat, r: Request, f: nat)
    requires c !in s.calls && 0 < r.length && r.InRange(|s.origin|) && Free(s, f)
    requires !Bitmap.AllSet(BitmapOf(s, f), r.FirstBlock(), r.LastBlock())
    ensures Legal(locked, s, Opening(c, r, f))
    ensures After(locked, s, Opening(c, r, f))
         == s.(bitmaps := s.bitmaps[f := BitmapOf(s, f)], name := Some(f), owner := map[f := c],
               calls := s.calls[c := Call(r, Sizing(f))])
  {
    StartAndOpen(locked, s, c, r, f);
    var s1 := After(locked, s, [Start(c, r), Open(c, f)]);
    MissAndLock(locked, s1, c, r, f);
    Concat(locked, s, [Start(c, r), Open(c, f)], [FastCheck(c, true), Lock(c)]);
    assert s.calls[c := Call(r, Check(f))][c := Call(r, Sizing(f))] == s.calls[c := Call(r, Sizing(f))];
  }

  /** The bitmap of a file once it is sized: as it is, or all zero. */
  function SizedBitmap(s: State, f: nat): Bytes
    requires f in s.bitmaps
  {
    Truncate(s.bitmaps[f], s.BitmapSize())
  }

  /** Sizes the local file and the bitmap, or finds them sized. */
  lemma SizingRuns(locked: bool, s: State, c: nat, r: Request, f: nat) returns (steps: seq<Step>)
    requires c in s.calls && s.calls[c] == Call(r, Sizing(f)) && 0 < r.length && f in s.bitmaps
    requires s.bitmaps[f] == [] || |s.bitmaps[f]| == s.BitmapSize()
    ensures Legal(locked, s, steps)
    ensures var t := After(locked, s, steps);
      t == s.(local := t.local, bitmaps := s.bitmaps[f := SizedBitmap(s, f)], calls := s.calls[c := Call(r, Sized(f))])
  {
    var s1 := Apply(s, SizeLocal(c));
    if |s.bitmaps[f]| < s.BitmapSize() {
      steps := [SizeLocal(c), SizeBitmap(c)];
      var s2 := Apply(s1, SizeBitmap(c));
      assert s.calls[c := Call(r, LocalSized(f))][c := Call(r, Sized(f))] == s.calls[c := Call(r, Sized(f))];
      One(locked, s1, SizeBitmap(c));
      Chain(locked, s, SizeLocal(c), [SizeBitmap(c)]);
    } else {
      steps := [SizeLocal(c)];
      assert SizedBitmap(s, f) == s.bitmaps[f];
      assert s.bitmaps[f := s.bitmaps[f]] == s.bitmaps;
      One(locked, s, SizeLocal(c));
    }
  }

  lemma RecheckStep(s: State, c: nat, r: Request, f: nat)
    requires c in s.calls && s.calls[c] == Call(r, Sized(f)) && s.owner == map[f := c]
    requires 0 < r.length && f in s.bitmaps && |s.bitmaps[f]| == s.BitmapSize()
    requires !Bitmap.AllSet(s.bitmaps[f], r.FirstBlock(), r.LastBlock())
    ensures Enabled(false, s, Recheck(c, s.BitmapSize()))
    ensures Apply(s, Recheck(c, s.BitmapSize())) == s.(owner := map[], calls := s.calls[c := Call(r, Fetching(f, 0))])
  {
    assert s.bitmaps[f][..s.BitmapSize()] == s.bitmaps[f];
    assert ReadInto(s.bitmaps[f], s.BitmapSize(), s.BitmapSize()) == s.bitmaps[f];
  }

  lemma FetchStep(s: State, c: nat, r: Request, f: nat)
    requires c in s.calls && s.calls[c] == Call(r, Fetching(f, 0))
    requires 0 < r.length && r.InRange(|s.origin|) && f in s.bitmaps
    ensures s.SpanStart(r) < s.SpanEnd(r) && Enabled(false, s, Fetch(c, s.SpanEnd(r) - s.SpanStart(r)))
    ensures var t := Apply(s, Fetch(c, s.SpanEnd(r) - s.SpanStart(r)));
      t == s.(local := t.local, calls := s.calls[c := Call(r, Fetched(f))])
  {
    SpanCoversRequest(r, |s.origin|);
  }

  /** Misses again on the sized bitmap, gives up the lock, and fetches the span at once. */
  lemma FetchingRuns(locked: bool, s: State, c: nat, r: Request, f: nat) returns (steps: seq<Step>)
    requires c in s.calls && s.calls[c] == Call(r, Sized(f)) && s.owner == map[f := c]
    requires 0 < r.length && r.InRange(|s.origin|) && f in s.bitmaps && |s.bitmaps[f]| == s.BitmapSize()
    requires !Bitmap.AllSet(s.bitmaps[f], r.FirstBlock(), r.LastBlock())
    ensures Legal(locked, s, steps)
    ensures var t := After(locked, s, steps);
      t == s.(local := t.local, owner := map[], calls := s.calls[c := Call(r, Fetched(f))])
  {
    var recheck := Recheck(c, s.BitmapSize());
    RecheckStep(s, c, r, f);
    var s1 := Apply(s, recheck);
    FetchStep(s1, c, r, f);
    var fetch := Fetch(c, s1.SpanEnd(r) - s1.SpanStart(r));
    steps := [recheck, fetch];
    One(locked, s1, fetch);
    Chain(locked, s, recheck, [fetch]);
    assert s.calls[c := Call(r, Fetching(f, 0))][c := Call(r, Fetched(f))] == s.calls[c := Call(r, Fetched(f))];
  }

  lemma SizedRuns(locked: bool, s: State, c: nat, r: Request, f: nat) returns (steps: seq<Step>)
    requires c !in s.calls && 0 < r.length && r.InRange(|s.origin|) && Free(s, f)
    requires !Bitmap.AllSet(BitmapOf(s, f), r.FirstBlock(), r.LastBlock())
    ensures Legal(locked, s, steps)
    ensures var t := After(locked, s, steps);
      t == s.(local := t.local, bitmaps := s.bitmaps[f := Truncate(BitmapOf(s, f), s.BitmapSize())], name := Some(f),
              owner := map[f := c], calls := s.calls[c := Call(r, Sized(f))])
  {
    OpeningRuns(locked, s, c, r, f);
    var s1 := After(locked, s, Opening(c, r, f));
    var sizing := SizingRuns(locked, s1, c, r, f);
    Concat(locked, s, Opening(c, r, f), sizing);
    steps := Opening(c, r, f) + sizing;
    assert s.calls[c := Call(r, Sizing(f))][c := Call(r, Sized(f))] == s.calls[c := Call(r, Sized(f))];
    assert s.bitmaps[f := BitmapOf(s, f)][f := Truncate(BitmapOf(s, f), s.BitmapSize())]
        == s.bitmaps[f := Truncate(BitmapOf(s, f), s.BitmapSize())];
  }

  /** A whole call up to the fetched span: it has no lock, and the bitmap, sized now, has the bits that it had. */
  lemma FetchedRuns(locked: bool, s: State, c: nat, r: Request, f: nat) returns (steps: seq<Step>)
    requires c !in s.calls && 0 < r.length && r.InRange(|s.origin|) && Free(s, f)
    requires !Bitmap.AllSet(BitmapOf(s, f), r.FirstBlock(), r.LastBlock())
    ensures Legal(locked, s, steps)
    ensures var t := After(locked, s, steps);
      && t.origin == s.origin && Free(t, f) && t.name == Some(f) && |t.bitmaps[f]| == t.BitmapSize()
      && t.calls == s.calls[c := Call(r, Fetched(f))]
      && forall b: nat :: Bitmap.Bit(t.bitmaps[f], b) <==> Bitmap.Bit(BitmapOf(s, f), b) && b / 8 < t.BitmapSize()
  {
    var sized := SizedRuns(locked, s, c, r, f);
    var s1 := After(locked, s, sized);
    forall b: nat
      ensures Bitmap.Bit(s1.bitmaps[f], b) <==> Bitmap.Bit(BitmapOf(s, f), b) && b / 8 < s.BitmapSize()
    {
      TruncateBits(BitmapOf(s, f), s.BitmapSize(), b);
    }
    if Bitmap.AllSet(s1.bitmaps[f], r.FirstBlock(), r.LastBlock()) {
      assert Bitmap.AllSet(BitmapOf(s, f), r.FirstBlock(), r.LastBlock());
    }
    var fetching := FetchingRuns(locked, s1, c, r, f);
    Concat(locked, s, sized, fetching);
    steps := sized + fetching;
    assert s.calls[c := Call(r, Sized(f))][c := Call(r, Fetched(f))] == s.calls[c := Call(r, Fetched(f))];
  }

  // ---------------------------------------------------------------- merging

  /** Locks, reads `got` bytes of the bitmap, merges, and writes the whole. */
  function Merging3(c: nat, got: nat, size: nat): seq<Step> {
    [Lock(c), MergeRead(c, got), MergeWrite(c, size)]
  }

  lemma RelockStep(s: State, c: nat, r: Request, f: nat)
    requires c in s.calls && s.calls[c] == Call(r, Fetched(f)) && 0 < r.length && f in s.bitmaps && s.owner == map[]
    ensures Enabled(false, s, Lock(c))
    ensures Apply(s, Lock(c)) == s.(owner := map[f := c], calls := s.calls[c := Call(r, Merging(f))])
  {
  }

  lemma MergeReadStep(s: State, c: nat, r: Request, f: nat, got: nat)
    requires c in s.calls && s.calls[c] == Call(r, Merging(f)) && 0 < r.length
    requires f in s.bitmaps && |s.bitmaps[f]| == s.BitmapSize() && got <= s.BitmapSize()
    requires r.LastBlock() / 8 < s.BitmapSize()
    ensures Enabled(false, s, MergeRead(c, got))
    ensures Apply(s, MergeRead(c, got))
         == s.(calls := s.calls[c := Call(r, Merged(f, MergeBuffer(s.bitmaps[f], got, r), got))])
  {
  }

  lemma MergeWriteStep(s: State, c: nat, r: Request, f: nat, buffer: Bytes, got: nat)
    requires c in s.calls && s.calls[c] == Call(r, Merged(f, buffer, got)) && 0 < r.length && s.owner == map[f := c]
    requires f in s.bitmaps && |s.bitmaps[f]| == |buffer|
    ensures Enabled(false, s, MergeWrite(c, |buffer|))
    ensures Apply(s, MergeWrite(c, |buffer|))
         == s.(bitmaps := s.bitmaps[f := buffer], owner := map[], calls := s.calls[c := Call(r, Ready(Some(f)))])
  {
    WholeWrite(s.bitmaps[f], buffer);
  }

  lemma MergingRuns(locked: bool, s: State, c: nat, r: Request, f: nat, got: nat)
    requires c in s.calls && s.calls[c] == Call(r, Fetched(f)) && s.owner == map[]
    requires 0 < r.length && f in s.bitmaps && |s.bitmaps[f]| == s.BitmapSize()
    requires got <= s.BitmapSize() && r.LastBlock() / 8 < s.BitmapSize()
    ensures Legal(locked, s, Merging3(c, got, s.BitmapSize()))
    ensures After(locked, s, Merging3(c, got, s.BitmapSize()))
         == s.(bitmaps := s.bitmaps[f := MergeBuffer(s.bitmaps[f], got, r)],
               calls := s.calls[c := Call(r, Ready(Some(f)))])
  {
    var size := s.BitmapSize();
    var buffer := MergeBuffer(s.bitmaps[f], got, r);
    RelockStep(s, c, r, f);
    var s1 := Apply(s, Lock(c));
    MergeReadStep(s1, c, r, f, got);
    var s2 := Apply(s1, MergeRead(c, got));
    MergeWriteStep(s2, c, r, f, buffer, got);
    One(locked, s2, MergeWrite(c, size));
    Chain(locked, s1, MergeRead(c, got), [MergeWrite(c, size)]);
    Chain(locked, s, Lock(c), [MergeRead(c, got), MergeWrite(c, size)]);
    assert s.calls[c := Call(r, Merging(f))][c := Call(r, Merged(f, buffer, got))][c := Call(r, Ready(Some(f)))]
        == s.calls[c := Call(r, Ready(Some(f)))];
  }

  // ---------------------------------------------------------------- hits

  /** The fast check, exactly: OK if the bitmap could be read and has all blocks of the request. */
  lemma FastCheckIff(s: State, c: nat, readOk: bool)
    requires Enabled(false, s, FastCheck(c, readOk))
    ensures var Call(r, p) := s.calls[c];
      Apply(s, FastCheck(c, readOk)).calls[c]
      == Call(r, if readOk && Bitmap.Run(r.FirstBlock(), r.LastBlock()) <= Bitmap.BlockSet(s.bitmaps[p.file])
                 then Ready(Some(p.file)) else Miss(p.file))
  {
    var Call(r, p) := s.calls[c];
    Bitmap.AllSetIsSubset(s.bitmaps[p.file], r.FirstBlock(), r.LastBlock());
    FirstBeforeLast(r);
    if Bitmap.AllSet(s.bitmaps[p.file], r.FirstBlock(), r.LastBlock()) {
      assert Bitmap.Bit(s.bitmaps[p.file], r.LastBlock());
    }
  }

  /** The re-check, exactly: OK if all blocks of the request are in the bytes that it read of the bitmap. */
  lemma RecheckIff(s: State, c: nat, got: nat)
    requires Enabled(false, s, Recheck(c, got))
    ensures var Call(r, p) := s.calls[c];
      Apply(s, Recheck(c, got)).calls[c]
      == Call(r, if Bitmap.Run(r.FirstBlock(), r.LastBlock()) <= Bitmap.BlockSet(s.bitmaps[p.file])
                    && r.LastBlock() / 8 < got
                 then Ready(Some(p.file)) else Fetching(p.file, 0))
  {
    var Call(r, p) := s.calls[c];
    var read := ReadInto(s.bitmaps[p.file], got, s.BitmapSize());
    Bitmap.AllSetIsSubset(s.bitmaps[p.file], r.FirstBlock(), r.LastBlock());
    FirstBeforeLast(r);
    forall b: nat
      ensures Bitmap.Bit(read, b) <==> b / 8 < got && Bitmap.Bit(s.bitmaps[p.file], b)
    {
      ReadIntoBits(s.bitmaps[p.file], got, s.BitmapSize(), b);
    }
    if Bitmap.AllSet(read, r.FirstBlock(), r.LastBlock()) {
      assert Bitmap.Bit(read, r.LastBlock());
    }
    assert Bitmap.AllSet(read, r.FirstBlock(), r.LastBlock())
      <==> Bitmap.AllSet(s.bitmaps[p.file], r.FirstBlock(), r.LastBlock()) && r.LastBlock() / 8 < got;
  }

  /** A hit: a call whose blocks are all on record in the bitmap file in use returns OK after three steps, and changes
      nothing else, neither the local file nor any bitmap. */
  lemma HitReturnsAtOnce(locked: bool, s: State, c: nat, r: Request, f: nat, newFile: nat)
    requires c !in s.calls && 0 < r.length && r.InRange(|s.origin|)
    requires s.name == Some(f) && f in s.bitmaps && (locked ==> f !in s.owner)
    requires Bitmap.Run(r.FirstBlock(), r.LastBlock()) <= Bitmap.BlockSet(s.bitmaps[f])
    ensures Legal(locked, s, [Start(c, r), Open(c, newFile), FastCheck(c, true)])
    ensures After(locked, s, [Start(c, r), Open(c, newFile), FastCheck(c, true)])
         == s.(calls := s.calls[c := Call(r, Ready(Some(f)))])
  {
    var s1 := Apply(s, Start(c, r));
    var s2 := Apply(s1, Open(c, newFile));
    assert s2 == s.(calls := s.calls[c := Call(r, Check(f))]);
    FastCheckIff(s2, c, true);
    One(locked, s2, FastCheck(c, true));
    Chain(locked, s1, Open(c, newFile), [FastCheck(c, true)]);
    Chain(locked, s, Start(c, r), [Open(c, newFile), FastCheck(c, true)]);
    assert Apply(s2, FastCheck(c, true)) == s.(calls := s.calls[c := Call(r, Ready(Some(f)))]);
  }

  /** Call c has opened bitmap file f and not yet decided to fetch; its blocks are on record there. Or it is beyond. */
  ghost predicate OnRecord(s: State, c: nat, f: nat) {
    c in s.calls &&
    var Call(r, p) := s.calls[c];
    || p.Ready? || p.Reading? || p.Served? || p.Failed?
    || ((p.Check? || p.Miss? || p.Sizing? || p.Sized?) && p.file == f && f in s.bitmaps && 0 < r.length
        && Bitmap.AllSet(s.bitmaps[f], r.FirstBlock(), r.LastBlock()))
  }

  /** The call's own re-check, if it comes to one, reads the bitmap in full. */
  predicate RecheckReadsAll(s: State, step: Step, c: nat)
    requires Enabled(false, s, step)
  {
    step.Recheck? && step.c == c ==> step.got == |s.bitmaps[s.calls[c].phase.file]|
  }

  lemma OwnStaysOnRecord(s: State, step: Step, c: nat, f: nat)
    requires Inv(s) && Enabled(false, s, step) && !step.RemoveBitmap? && step.c == c && OnRecord(s, c, f)
    requires RecheckReadsAll(s, step, c)
    ensures !step.Fetch? && OnRecord(Apply(s, step), c, f)
  {
    var Call(r, p) := s.calls[c];
    if !p.Ready? && !p.Reading? && !p.Served? && !p.Failed? {
      FirstBeforeLast(r);
      assert Bitmap.Bit(s.bitmaps[f], r.LastBlock());
      Bitmap.AllSetIsSubset(s.bitmaps[f], r.FirstBlock(), r.LastBlock());
      if step.FastCheck? {
        FastCheckIff(s, c, step.readOk);
      } else if step.Recheck? {
        RecheckIff(s, c, step.got);
      }
    }
  }

  lemma OthersKeepOnRecord(s: State, step: Step, c: nat, f: nat)
    requires Enabled(false, s, step) && (step.RemoveBitmap? || step.c != c) && OnRecord(s, c, f)
    requires AllGrow(s, Apply(s, step))
    ensures OnRecord(Apply(s, step), c, f)
  {
    OthersStay(s, step, c);
  }

  predicate RunRechecksReadAll(s: State, steps: seq<Step>, c: nat)
    requires Legal(true, s, steps)
    decreases |steps|
  {
    steps == [] || (RecheckReadsAll(s, steps[0], c) && RunRechecksReadAll(Apply(s, steps[0]), steps[1..], c))
  }

  lemma {:induction false} StaysOnRecord(s: State, steps: seq<Step>, c: nat, f: nat)
    requires LockInv(s) && Legal(true, s, steps) && RunMergesKeep(s, steps) && RunRechecksReadAll(s, steps, c)
    requires OnRecord(s, c, f)
    ensures OnRecord(After(true, s, steps), c, f)
    ensures forall i | 0 <= i < |steps| && steps[i].Fetch? :: steps[i].c != c
    decreases |steps|
  {
    if steps != [] {
      StepGrowsIff(s, steps[0]);
      if !steps[0].RemoveBitmap? && steps[0].c == c {
        OwnStaysOnRecord(s, steps[0], c, f);
      } else {
        OthersKeepOnRecord(s, steps[0], c, f);
      }
      StepKeepsLockInv(s, steps[0]);
      StaysOnRecord(Apply(s, steps[0]), steps[1..], c, f);
      assert forall i | 1 <= i < |steps| :: steps[i] == steps[1..][i - 1];
    }
  }

  /** Nothing recorded is fetched again: with the lock, a call that has opened a bitmap file, and finds its blocks recorded
      there by then, takes no fetching step, whatever others do meanwhile, if its re-check reads the bitmap in full and no
      merge wipes out a block that it did not read. */
  lemma RecordedIsNotFetched(start: State, before: seq<Step>, later: seq<Step>, c: nat, f: nat)
    requires Init(start) && Legal(true, start, before) && Legal(true, After(true, start, before), later)
    requires var s := After(true, start, before);
      && c in s.calls
      && (s.calls[c].phase == Check(f) || s.calls[c].phase == Miss(f) || s.calls[c].phase == Sizing(f)
          || s.calls[c].phase == Sized(f))
      && f in s.bitmaps && 0 < s.calls[c].request.length
      && Bitmap.Run(s.calls[c].request.FirstBlock(), s.calls[c].request.LastBlock()) <= Bitmap.BlockSet(s.bitmaps[f])
      && RunMergesKeep(s, later) && RunRechecksReadAll(s, later, c)
    ensures forall i | 0 <= i < |later| && later[i].Fetch? :: later[i].c != c
  {
    LockedRun(start, before);
    var s := After(true, start, before);
    var r := s.calls[c].request;
    Bitmap.AllSetIsSubset(s.bitmaps[f], r.FirstBlock(), r.LastBlock());
    StaysOnRecord(s, later, c, f);
  }

  // ---------------------------------------------------------------- a whole call

  /** A call by itself, nothing failing, returns OK with its blocks on record, the lock free, and no other block gone. */
  lemma EnsureSucceeds(locked: bool, s: State, c: nat, r: Request, f: nat) returns (steps: seq<Step>)
    requires c !in s.calls && 0 < r.length && r.InRange(|s.origin|) && Free(s, f)
    ensures Legal(locked, s, steps)
    ensures var t := After(locked, s, steps);
      && t.origin == s.origin && t.owner == map[] && t.name == Some(f) && f in t.bitmaps
      && t.calls == s.calls[c := Call(r, Ready(Some(f)))]
      && Bitmap.Run(r.FirstBlock(), r.LastBlock()) <= Bitmap.BlockSet(t.bitmaps[f])
      && Grows(BitmapOf(s, f), t.bitmaps[f])
  {
    Bitmap.AllSetIsSubset(BitmapOf(s, f), r.FirstBlock(), r.LastBlock());
    if Bitmap.AllSet(BitmapOf(s, f), r.FirstBlock(), r.LastBlock()) {
      FirstBeforeLast(r);
      assert Bitmap.Bit(BitmapOf(s, f), r.FirstBlock());
      HitReturnsAtOnce(locked, s, c, r, f, f);
      steps := [Start(c, r), Open(c, f), FastCheck(c, true)];
    } else {
      RequestBlocks(r, |s.origin|);
      var fetched := FetchedRuns(locked, s, c, r, f);
      var s1 := After(locked, s, fetched);
      var size := s1.BitmapSize();
      MergingRuns(locked, s1, c, r, f, size);
      Concat(locked, s, fetched, Merging3(c, size, size));
      steps := fetched + Merging3(c, size, size);
      MergedBits(s, s1, r, f);
      assert s.calls[c := Call(r, Fetched(f))][c := Call(r, Ready(Some(f)))] == s.calls[c := Call(r, Ready(Some(f)))];
    }
  }

  lemma MergeBits(bitmap: Bytes, got: nat, r: Request, b: nat)
    requires 0 < r.length && got <= |bitmap| && r.LastBlock() / 8 < |bitmap|
    ensures Bitmap.Bit(MergeBuffer(bitmap, got, r), b)
       <==> r.FirstBlock() <= b <= r.LastBlock() || (b / 8 < got && Bitmap.Bit(bitmap, b))
  {
    ReadIntoBits(bitmap, got, |bitmap|, b);
    Bitmap.SetRangeBits(ReadInto(bitmap, got, |bitmap|), r.FirstBlock(), r.LastBlock(), b);
  }

  lemma MergedBits(s: State, s1: State, r: Request, f: nat)
    requires 0 < r.length && f in s1.bitmaps && r.LastBlock() / 8 < |s1.bitmaps[f]|
    requires Free(s, f) && s1.BitmapSize() == s.BitmapSize() == |s1.bitmaps[f]|
    requires forall b: nat :: Bitmap.Bit(s1.bitmaps[f], b) <==> Bitmap.Bit(BitmapOf(s, f), b) && b / 8 < s1.BitmapSize()
    ensures var merged := MergeBuffer(s1.bitmaps[f], |s1.bitmaps[f]|, r);
      && Bitmap.Run(r.FirstBlock(), r.LastBlock()) <= Bitmap.BlockSet(merged) && Grows(BitmapOf(s, f), merged)
  {
    var merged := MergeBuffer(s1.bitmaps[f], |s1.bitmaps[f]|, r);
    forall b: nat
      ensures Bitmap.Bit(merged, b) <==> r.FirstBlock() <= b <= r.LastBlock() || Bitmap.Bit(s1.bitmaps[f], b)
    {
      MergeBits(s1.bitmaps[f], |s1.bitmaps[f]|, r, b);
    }
    Bitmap.AllSetIsSubset(merged, r.FirstBlock(), r.LastBlock());
  }

  // ---------------------------------------------------------------- reading back

  /** What is left to read is read in chunks of at most the transfer granularity. */
  lemma {:induction false} ChunksRun(locked: bool, s: State, c: nat) returns (steps: seq<Step>)
    requires Inv(s) && c in s.calls && s.calls[c].phase.Reading?
    requires |s.calls[c].phase.buffer| < s.calls[c].phase.rangeLen
    ensures Legal(locked, s, steps)
    ensures var t := After(locked, s, steps);
      && t.origin == s.origin && t.local == s.local && t.bitmaps == s.bitmaps && c in t.calls
      && t.calls[c].request == s.calls[c].request && t.calls[c].phase.Served?
    decreases s.calls[c].phase.rangeLen - |s.calls[c].phase.buffer|
  {
    var Call(r, p) := s.calls[c];
    assert CallOk(s, s.calls[c]);
    assert ByteOk(s, r.End() - 1);
    var left := p.rangeLen - |p.buffer|;
    var step := ReadChunk(c, if left > TRANSFER_GRANULARITY then TRANSFER_GRANULARITY else left);
    StepKeepsInv(s, step);
    var t := Apply(s, step);
    if t.calls[c].phase.Served? {
      One(locked, s, step);
      steps := [step];
    } else {
      var rest := ChunksRun(locked, t, c);
      Chain(locked, s, step, rest);
      steps := [step] + rest;
    }
  }

  lemma StartingToRead(s: State, c: nat)
    requires Inv(s) && c in s.calls && s.calls[c].phase.Ready?
    ensures Enabled(false, s, StartReading(c))
    ensures var t := Apply(s, StartReading(c));
      && Inv(t) && t.origin == s.origin && c in t.calls && t.calls[c].request == s.calls[c].request
      && (t.calls[c].phase.Served?
          || (t.calls[c].phase.Reading? && |t.calls[c].phase.buffer| < t.calls[c].phase.rangeLen))
  {
    assert CallOk(s, s.calls[c]);
    if 0 < s.calls[c].request.length {
      assert ByteOk(s, s.calls[c].request.End() - 1);
    }
    StepKeepsInv(s, StartReading(c));
  }

  lemma ServedIsOrigin(s: State, c: nat)
    requires Inv(s) && c in s.calls && s.calls[c].phase.Served?
    ensures var r := s.calls[c].request;
      r.End() <= |s.origin| && s.calls[c] == Call(r, Served(s.origin[r.offset..r.End()]))
  {
    assert CallOk(s, s.calls[c]);
  }

  /** After OK the worker's chunked read, nothing failing, gives exactly the origin's range. */
  lemma ReadingSucceeds(locked: bool, s: State, c: nat) returns (steps: seq<Step>)
    requires Inv(s) && c in s.calls && s.calls[c].phase.Ready?
    ensures Legal(locked, s, steps)
    ensures var t := After(locked, s, steps);
      var r := s.calls[c].request;
      r.End() <= |s.origin| && c in t.calls && t.calls[c] == Call(r, Served(s.origin[r.offset..r.End()]))
  {
    StartingToRead(s, c);
    var s1 := Apply(s, StartReading(c));
    if s1.calls[c].phase.Served? {
      One(locked, s, StartReading(c));
      steps := [StartReading(c)];
    } else {
      var rest := ChunksRun(locked, s1, c);
      Chain(locked, s, StartReading(c), rest);
      steps := [StartReading(c)] + rest;
    }
    RunKeepsInv(locked, s, steps);
    ServedIsOrigin(After(locked, s, steps), c);
  }

  /** So does the single read of a consumer on the node, if it is complete; if it is not, the call fails. */
  lemma WholeReadIff(s: State, c: nat, got: nat)
    requires Inv(s) && Enabled(false, s, ReadWhole(c, got))
    ensures var r := s.calls[c].request;
      && r.End() <= |s.origin|
      && Apply(s, ReadWhole(c, got)).calls[c]
         == Call(r, if got == r.length then Served(s.origin[r.offset..r.End()]) else Failed)
  {
    StepKeepsInv(s, ReadWhole(c, got));
    var t := Apply(s, ReadWhole(c, got));
    assert CallOk(s, s.calls[c]);
    assert CallOk(t, t.calls[c]);
  }

  /** An empty range is OK at once. */
  lemma EmptyRangeIsReady(s: State, c: nat, r: Request)
    requires Enabled(false, s, Start(c, r)) && r.length == 0
    ensures Apply(s, Start(c, r)) == s.(calls := s.calls[c := Call(r, Ready(None))])
  {
  }
}
