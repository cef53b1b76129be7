/** Theorems over whole runs of the range cache. */
module RangeCacheRuns {
  import opened BlockMath
  import opened Files
  import opened RangeCache
  import opened RangeCacheProofs
  import Bitmap

  /** Whatever interleaving a run takes, with or without the lock, it keeps the invariant and every right byte. */
  lemma {:induction false} RunKeepsInv(locked: bool, s: State, steps: seq<Step>)
    requires Inv(s) && Legal(locked, s, steps)
    ensures Inv(After(locked, s, steps))
    ensures After(locked, s, steps).origin == s.origin
    ensures forall i: nat | ByteOk(s, i) :: ByteOk(After(locked, s, steps), i)
    decreases |steps|
  {
    if steps != [] {
      StepKeepsInv(s, steps[0]);
      StepKeepsBytes(s, steps[0]);
      RunKeepsInv(locked, Apply(s, steps[0]), steps[1..]);
    }
  }

  lemma RangeIsSlice(s: State, lo: nat, hi: nat)
    requires lo <= hi <= |s.origin| && RangeOk(s, lo, hi)
    ensures lo < hi ==> hi <= |s.local| && s.local[lo..hi] == s.origin[lo..hi]
  {
    if lo < hi {
      assert ByteOk(s, hi - 1);
      assert forall k | 0 <= k < hi - lo :: ByteOk(s, lo + k) ==> s.local[lo..hi][k] == s.origin[lo..hi][k];
      forall k | 0 <= k < hi - lo
        ensures s.local[lo..hi][k] == s.origin[lo..hi][k]
      {
        assert ByteOk(s, lo + k);
      }
    }
  }

  /** Soundness: in every reachable state, a set bit of any bitmap file stands for a block of the origin whose bytes,
      clamped at end of file, the local file has. Neither the lock nor the success of any step is assumed. */
  lemma SetBitsAreTrue(locked: bool, start: State, steps: seq<Step>, f: nat, b: nat)
    requires Init(start) && Legal(locked, start, steps)
    requires f in After(locked, start, steps).bitmaps
    requires Bitmap.Bit(After(locked, start, steps).bitmaps[f], b)
    ensures var s := After(locked, start, steps);
      && BlockStart(b) < |start.origin|
      && BlockEnd(b, |start.origin|) <= |s.local|
      && s.local[BlockStart(b)..BlockEnd(b, |start.origin|)] == start.origin[BlockStart(b)..BlockEnd(b, |start.origin|)]
  {
    RunKeepsInv(locked, start, steps);
    BitmapCoversOrigin(|start.origin|, b);
    RangeIsSlice(After(locked, start, steps), BlockStart(b), BlockEnd(b, |start.origin|));
  }

  /** Once a call has returned OK, on whichever of its exits, the requested bytes of the local file are the origin's
      in that state and in every later one, whatever other callers do. */
  lemma OkIsForever(locked: bool, start: State, before: seq<Step>, later: seq<Step>, c: nat)
    requires Init(start) && Legal(locked, start, before)
    requires Legal(locked, After(locked, start, before), later)
    requires c in After(locked, start, before).calls && After(locked, start, before).calls[c].phase.Ready?
    ensures var s := After(locked, After(locked, start, before), later);
      var r := After(locked, start, before).calls[c].request;
      && r.End() <= |start.origin|
      && (0 < r.length ==> r.End() <= |s.local| && s.local[r.offset..r.End()] == start.origin[r.offset..r.End()])
  {
    RunKeepsInv(locked, start, before);
    var mid := After(locked, start, before);
    assert CallOk(mid, mid.calls[c]);
    RunKeepsInv(locked, mid, later);
    RangeIsSlice(After(locked, mid, later), mid.calls[c].request.offset, mid.calls[c].request.End());
  }

  /** The payload that a worker or a local consumer reads back after an OK return is exactly the origin's range, for
      every pattern of short reads and every concurrent fetch. */
  lemma PayloadIsOrigin(locked: bool, start: State, steps: seq<Step>, c: nat)
    requires Init(start) && Legal(locked, start, steps)
    requires c in After(locked, start, steps).calls && After(locked, start, steps).calls[c].phase.Served?
    ensures var call := After(locked, start, steps).calls[c];
      && call.request.End() <= |start.origin|
      && call.phase.payload == start.origin[call.request.offset..call.request.End()]
  {
    RunKeepsInv(locked, start, steps);
    assert CallOk(After(locked, start, steps), After(locked, start, steps).calls[c]);
  }

  // ---------------------------------------------------------------- no lost updates

  /** The exclusive lock covers sizing with its re-check, and reading, merging and writing the bitmap. */
  predicate InLock(p: Phase) {
    p.Sizing? || p.LocalSized? || p.Sized? || p.Merging? || p.Merged?
  }

  /** The bitmap `after` has every bit of the bitmap `before`. */
  ghost predicate Grows(before: Bytes, after: Bytes) {
    forall b: nat | Bitmap.Bit(before, b) :: Bitmap.Bit(after, b)
  }

  /** What a merge writes when it has read `got` bytes. */
  function MergeBuffer(bitmap: Bytes, got: nat, r: Request): Bytes
    requires 0 < r.length && got <= |bitmap| && r.LastBlock() / 8 < |bitmap|
  {
    Bitmap.SetRange(ReadInto(bitmap, got, |bitmap|), r.FirstBlock(), r.LastBlock())
  }

  ghost predicate HoldOk(s: State, c: nat)
    requires c in s.calls
  {
    var Call(r, p) := s.calls[c];
    && (InLock(p) ==> p.file in s.owner && s.owner[p.file] == c && p.file in s.bitmaps)
    // first touch: the bitmap that is about to be sized has no bit
    && (p.LocalSized? ==> s.bitmaps[p.file] == [])
    // nothing was recorded between the read and the write of a merge
    && (p.Merged? ==>
          && 0 < r.length && p.got <= |s.bitmaps[p.file]| && r.LastBlock() / 8 < |s.bitmaps[p.file]|
          && p.buffer == MergeBuffer(s.bitmaps[p.file], p.got, r))
  }

  /** Only a call that is at work under the lock of a bitmap file owns it. */
  predicate OwnerOk(s: State, f: nat)
    requires f in s.owner
  {
    var c := s.owner[f];
    c in s.calls && InLock(s.calls[c].phase) && s.calls[c].phase.file == f
  }

  ghost predicate LockInv(s: State) {
    Inv(s) && (forall c | c in s.calls :: HoldOk(s, c)) && forall f | f in s.owner :: OwnerOk(s, f)
  }

  /** A locked step, which is a step of the machine without locks too. */
  ghost predicate LockedStep(s: State, step: Step) {
    LockInv(s) && Enabled(true, s, step) && Enabled(false, s, step)
  }

  /** A step of another caller leaves alone the bitmap file, and the lock on it, that c works on under the lock. */
  lemma OthersKeepFile(s: State, step: Step, c: nat)
    requires LockedStep(s, step)
    requires c in s.calls && InLock(s.calls[c].phase) && (step.RemoveBitmap? || step.c != c)
    ensures var f := s.calls[c].phase.file;
      && f in s.bitmaps && f in Apply(s, step).bitmaps && Apply(s, step).bitmaps[f] == s.bitmaps[f]
      && f in Apply(s, step).owner && Apply(s, step).owner[f] == c
  {
    var f := s.calls[c].phase.file;
    assert HoldOk(s, c);
    if !step.RemoveBitmap? && step.c in s.calls {
      assert HoldOk(s, step.c);
      assert InLock(s.calls[step.c].phase) ==> s.calls[step.c].phase.file != f;
    }
  }

  /** Another caller's step leaves what c holds alone. */
  lemma OthersKeepHold(s: State, step: Step, c: nat)
    requires LockedStep(s, step)
    requires c in s.calls && c in Apply(s, step).calls && Apply(s, step).calls[c] == s.calls[c]
    requires step.RemoveBitmap? || step.c != c
    ensures HoldOk(Apply(s, step), c)
  {
    assert HoldOk(s, c);
    if InLock(s.calls[c].phase) {
      OthersKeepFile(s, step, c);
    }
  }

  lemma MergeHold(s: State, step: Step)
    requires LockedStep(s, step) && (step.MergeRead? || step.MergeWrite?)
    ensures HoldOk(Apply(s, step), step.c)
  {
    assert HoldOk(s, step.c) && CallOk(s, s.calls[step.c]);
    RequestBlocks(s.calls[step.c].request, |s.origin|);
  }

  lemma SetupHold(s: State, step: Step)
    requires LockedStep(s, step)
    requires step.Start? || step.Open? || step.Lock? || step.SizeLocal? || step.SizeBitmap?
    ensures step.c in Apply(s, step).calls && HoldOk(Apply(s, step), step.c)
  {
    assert step.c in s.calls ==> HoldOk(s, step.c);
  }

  lemma DataHold(s: State, step: Step)
    requires Enabled(false, s, step)
    requires step.FastCheck? || step.Recheck? || step.Fetch? || step.StartReading? || step.ReadChunk? || step.ReadWhole?
             || step.Fail?
    ensures HoldOk(Apply(s, step), step.c)
  {
  }

  lemma OwnHold(s: State, step: Step)
    requires LockedStep(s, step) && !step.RemoveBitmap?
    ensures step.c in Apply(s, step).calls && HoldOk(Apply(s, step), step.c)
  {
    if step.MergeRead? || step.MergeWrite? {
      MergeHold(s, step);
    } else if step.Start? || step.Open? || step.Lock? || step.SizeLocal? || step.SizeBitmap? {
      SetupHold(s, step);
    } else {
      DataHold(s, step);
    }
  }

  /** Where an owner comes from: it was one before, or is the call that took the lock just now. */
  lemma OwnerComesFrom(s: State, step: Step, f: nat)
    requires Enabled(false, s, step) && f in Apply(s, step).owner
    ensures || (f in s.owner && Apply(s, step).owner[f] == s.owner[f])
            || (step.Lock? && step.c in s.calls && Apply(s, step).owner[f] == step.c && OwnerOk(Apply(s, step), f))
  {
  }

  /** A call that still owns a lock after its step is still at work under it. */
  lemma OwnerGoesOn(s: State, step: Step, f: nat)
    requires LockedStep(s, step) && f in s.owner && f in Apply(s, step).owner && Apply(s, step).owner[f] == s.owner[f]
    requires OwnerOk(s, f) && !step.RemoveBitmap? && step.c == s.owner[f]
    ensures OwnerOk(Apply(s, step), f)
  {
  }

  lemma OthersStay(s: State, step: Step, c: nat)
    requires Enabled(false, s, step) && c in s.calls && (step.RemoveBitmap? || step.c != c)
    ensures c in Apply(s, step).calls && Apply(s, step).calls[c] == s.calls[c]
  {
  }

  lemma StepKeepsOwner(s: State, step: Step, f: nat)
    requires LockedStep(s, step) && f in Apply(s, step).owner
    ensures OwnerOk(Apply(s, step), f)
  {
    OwnerComesFrom(s, step, f);
    if f in s.owner && Apply(s, step).owner[f] == s.owner[f] {
      assert OwnerOk(s, f);
      if !step.RemoveBitmap? && step.c == s.owner[f] {
        OwnerGoesOn(s, step, f);
      } else {
        OthersStay(s, step, s.owner[f]);
      }
    }
  }

  lemma StepKeepsLockInv(s: State, step: Step)
    requires LockedStep(s, step)
    ensures LockInv(Apply(s, step))
  {
    StepKeepsInv(s, step);
    forall c | c in Apply(s, step).calls
      ensures HoldOk(Apply(s, step), c)
    {
      if step.RemoveBitmap? || step.c != c {
        StepFrame(s, step, c);
        OthersKeepHold(s, step, c);
      } else {
        OwnHold(s, step);
      }
    }
    forall f | f in Apply(s, step).owner
      ensures OwnerOk(Apply(s, step), f)
    {
      StepKeepsOwner(s, step, f);
    }
  }

  /** Exactly when one merge keeps every bit: a merge that read `got` bytes of the bitmap and wrote `put` bytes loses
      no bit if and only if every bit recorded in the bytes it wrote without having read is one of its own blocks. */
  lemma MergeKeepsBitsIff(bitmap: Bytes, got: nat, put: nat, first: nat, last: nat)
    requires got <= |bitmap| && put <= |bitmap| && last / 8 < |bitmap|
    ensures var buffer := Bitmap.SetRange(ReadInto(bitmap, got, |bitmap|), first, last);
      Grows(bitmap, WriteAt(bitmap, 0, buffer[..put]))
      <==> forall b: nat | Bitmap.Bit(bitmap, b) && got <= b / 8 < put :: first <= b <= last
  {
    var read := ReadInto(bitmap, got, |bitmap|);
    var buffer := Bitmap.SetRange(read, first, last);
    forall b: nat | Bitmap.Bit(bitmap, b)
      ensures Bitmap.Bit(WriteAt(bitmap, 0, buffer[..put]), b) <==> (got <= b / 8 < put ==> first <= b <= last)
    {
      WriteBits(bitmap, buffer, put, b);
      Bitmap.SetRangeBits(read, first, last, b);
      ReadIntoBits(bitmap, got, |bitmap|, b);
    }
  }

  /** The blocks recorded in the bytes that a merge writes without having read are its own. A merge that read its bitmap
      in full has no such bytes. */
  ghost predicate MergeKeeps(s: State, step: Step)
    requires Enabled(false, s, step)
  {
    step.MergeWrite? ==>
      var Call(r, p) := s.calls[step.c];
      forall b: nat | Bitmap.Bit(s.bitmaps[p.file], b) && p.got <= b / 8 < step.put :: r.FirstBlock() <= b <= r.LastBlock()
  }

  lemma FullReadKeeps(s: State, step: Step)
    requires Enabled(false, s, step)
    requires step.MergeWrite? ==> s.calls[step.c].phase.got >= |s.bitmaps[s.calls[step.c].phase.file]|
    ensures MergeKeeps(s, step)
  {
  }

  /** Every bitmap file is still there, with every bit that it had. */
  ghost predicate AllGrow(s: State, t: State) {
    forall f | f in s.bitmaps :: f in t.bitmaps && Grows(s.bitmaps[f], t.bitmaps[f])
  }

  /** Sizing happens only while a bitmap has no bit. */
  lemma SizingIsFirstTouch(s: State, step: Step)
    requires LockedStep(s, step) && step.SizeBitmap?
    ensures s.bitmaps[s.calls[step.c].phase.file] == []
  {
    assert HoldOk(s, step.c);
  }

  lemma MergeWriteGrowsIff(s: State, step: Step)
    requires LockedStep(s, step) && step.MergeWrite?
    ensures AllGrow(s, Apply(s, step)) <==> MergeKeeps(s, step)
  {
    var Call(r, p) := s.calls[step.c];
    assert HoldOk(s, step.c) && CallOk(s, s.calls[step.c]);
    MergeKeepsBitsIff(s.bitmaps[p.file], p.got, step.put, r.FirstBlock(), r.LastBlock());
    var t := Apply(s, step);
    assert t.bitmaps == s.bitmaps[p.file := WriteAt(s.bitmaps[p.file], 0, p.buffer[..step.put])];
  }

  /** With the lock, exactly when a step keeps every recorded block of every bitmap file: always, but for the write of a
      merge that would wipe out a block it did not read. */
  lemma StepGrowsIff(s: State, step: Step)
    requires LockedStep(s, step)
    ensures AllGrow(s, Apply(s, step)) <==> MergeKeeps(s, step)
  {
    if step.MergeWrite? {
      MergeWriteGrowsIff(s, step);
    } else if step.SizeBitmap? {
      SizingIsFirstTouch(s, step);
    }
  }

  /** Every step of the run keeps every recorded block. */
  ghost predicate RunGrows(s: State, steps: seq<Step>)
    requires Legal(true, s, steps)
    decreases |steps|
  {
    steps == [] || (AllGrow(s, Apply(s, steps[0])) && RunGrows(Apply(s, steps[0]), steps[1..]))
  }

  /** No merge of the run wipes out a block that it did not read. */
  ghost predicate RunMergesKeep(s: State, steps: seq<Step>)
    requires Legal(true, s, steps)
    decreases |steps|
  {
    steps == [] || (MergeKeeps(s, steps[0]) && RunMergesKeep(Apply(s, steps[0]), steps[1..]))
  }

  /** With the lock, exactly when the set of recorded blocks only grows along a run. */
  lemma {:induction false} LockedRun(s: State, steps: seq<Step>)
    requires LockInv(s) && Legal(true, s, steps)
    ensures LockInv(After(true, s, steps))
    ensures RunGrows(s, steps) <==> RunMergesKeep(s, steps)
    ensures RunGrows(s, steps) ==> AllGrow(s, After(true, s, steps))
    decreases |steps|
  {
    if steps != [] {
      StepGrowsIff(s, steps[0]);
      StepKeepsLockInv(s, steps[0]);
      LockedRun(Apply(s, steps[0]), steps[1..]);
    }
  }

  /** No lock is kept: in every reachable state of the locked machine, the owner of a bitmap file's lock is a call between
      taking the lock and giving it up. */
  lemma LockIsGivenBack(start: State, steps: seq<Step>, f: nat)
    requires Init(start) && Legal(true, start, steps) && f in After(true, start, steps).owner
    ensures var s := After(true, start, steps);
      s.owner[f] in s.calls &&
      var p := s.calls[s.owner[f]].phase;
      (p.Sizing? || p.LocalSized? || p.Sized? || p.Merging? || p.Merged?) && p.file == f
  {
    LockedRun(start, steps);
    assert OwnerOk(After(true, start, steps), f);
  }

  // ---------------------------------------------------------------- the local file's size

  /** The local file has the origin's size from the time that a bitmap file is sized. */
  ghost predicate LocalOk(s: State) {
    && (forall f | f in s.bitmaps && s.bitmaps[f] != [] :: |s.local| == |s.origin|)
    && (forall c | c in s.calls && s.calls[c].phase.LocalSized? :: |s.local| == |s.origin|)
  }

  lemma FetchKeepsSize(s: State, step: Step)
    requires Inv(s) && LocalOk(s) && Enabled(false, s, step) && step.Fetch?
    ensures |Apply(s, step).local| == |s.origin|
  {
    var Call(r, p) := s.calls[step.c];
    assert CallOk(s, s.calls[step.c]);
    RequestBlocks(r, |s.origin|);
    var at, piece := FetchCopies(s, step);
  }

  lemma MergeKeepsSize(s: State, step: Step)
    requires Inv(s) && LocalOk(s) && Enabled(false, s, step) && step.MergeWrite?
    ensures LocalOk(Apply(s, step))
  {
    assert CallOk(s, s.calls[step.c]);
    RequestBlocks(s.calls[step.c].request, |s.origin|);
  }

  lemma OthersKeepSize(s: State, step: Step)
    requires LocalOk(s) && Enabled(false, s, step) && !step.Fetch? && !step.MergeWrite?
    ensures LocalOk(Apply(s, step))
  {
    LocalStays(s, step);
  }

  lemma StepKeepsSize(s: State, step: Step)
    requires Inv(s) && LocalOk(s) && Enabled(false, s, step)
    ensures LocalOk(Apply(s, step))
  {
    if step.Fetch? {
      FetchKeepsSize(s, step);
    } else if step.MergeWrite? {
      MergeKeepsSize(s, step);
    } else {
      OthersKeepSize(s, step);
    }
  }

  lemma {:induction false} RunKeepsSize(locked: bool, s: State, steps: seq<Step>)
    requires Inv(s) && LocalOk(s) && Legal(locked, s, steps)
    ensures LocalOk(After(locked, s, steps))
    decreases |steps|
  {
    if steps != [] {
      StepKeepsSize(s, steps[0]);
      StepKeepsInv(s, steps[0]);
      RunKeepsSize(locked, Apply(s, steps[0]), steps[1..]);
    }
  }

  /** First touch sizes the local file: in every reachable state in which some bitmap file is not empty, the local file is
      as long as the origin. */
  lemma LocalHasOriginSize(locked: bool, start: State, steps: seq<Step>, f: nat)
    requires Init(start) && Legal(locked, start, steps)
    requires f in After(locked, start, steps).bitmaps && After(locked, start, steps).bitmaps[f] != []
    ensures |After(locked, start, steps).local| == |start.origin|
  {
    RunKeepsSize(locked, start, steps);
    RunKeepsInv(locked, start, steps);
  }

  /** A call that returned OK through a bitmap file has its blocks recorded there. */
  ghost predicate RecordOk(s: State, c: nat)
    requires c in s.calls
  {
    var Call(r, p) := s.calls[c];
    p.Ready? && p.via.Some? ==>
      0 < r.length && p.via.value in s.bitmaps && Bitmap.AllSet(s.bitmaps[p.via.value], r.FirstBlock(), r.LastBlock())
  }

  /** Whatever was recorded or lost before, a call has its blocks recorded when it returns OK. */
  lemma OkMeansRecorded(s: State, step: Step)
    requires LockedStep(s, step) && !step.RemoveBitmap? && (step.c in s.calls ==> !s.calls[step.c].phase.Ready?)
    ensures step.c in Apply(s, step).calls && RecordOk(Apply(s, step), step.c)
  {
    if step.Recheck? {
      var p := s.calls[step.c].phase;
      forall b: nat { ReadIntoBits(s.bitmaps[p.file], step.got, s.BitmapSize(), b); }
    } else if step.MergeWrite? {
      MergeRecords(s, step);
    }
  }

  lemma WholeWrite(bitmap: Bytes, buffer: Bytes)
    requires |buffer| == |bitmap|
    ensures WriteAt(bitmap, 0, buffer[..|buffer|]) == buffer
  {
    assert buffer[..|buffer|] == buffer;
  }

  lemma WholeMergeWrite(s: State, step: Step)
    requires Enabled(false, s, step) && step.MergeWrite?
    requires var p := s.calls[step.c].phase; step.put == |p.buffer| == |s.bitmaps[p.file]|
    ensures var p := s.calls[step.c].phase;
      p.file in Apply(s, step).bitmaps && Apply(s, step).bitmaps[p.file] == p.buffer
  {
    WholeWrite(s.bitmaps[s.calls[step.c].phase.file], s.calls[step.c].phase.buffer);
  }

  lemma MergeRecords(s: State, step: Step)
    requires Inv(s) && Enabled(false, s, step) && step.MergeWrite?
    ensures RecordOk(Apply(s, step), step.c)
  {
    var p := s.calls[step.c].phase;
    assert CallOk(s, s.calls[step.c]);
    if step.put == |p.buffer| {
      WholeMergeWrite(s, step);
    }
  }

  lemma RecordStays(s: State, step: Step, c: nat)
    requires Enabled(false, s, step) && AllGrow(s, Apply(s, step)) && c in s.calls && RecordOk(s, c)
    requires step.RemoveBitmap? || step.c != c || s.calls[c].phase.Ready?
    ensures c in Apply(s, step).calls && RecordOk(Apply(s, step), c)
  {
    if step.RemoveBitmap? || step.c != c {
      assert Apply(s, step).calls[c] == s.calls[c];
    }
  }

  lemma {:induction false} RunKeepsRecords(s: State, steps: seq<Step>)
    requires LockInv(s) && Legal(true, s, steps) && RunMergesKeep(s, steps)
    requires forall c | c in s.calls :: RecordOk(s, c)
    ensures forall c | c in After(true, s, steps).calls :: RecordOk(After(true, s, steps), c)
    decreases |steps|
  {
    if steps != [] {
      var t := Apply(s, steps[0]);
      StepGrowsIff(s, steps[0]);
      StepKeepsLockInv(s, steps[0]);
      forall c | c in t.calls
        ensures RecordOk(t, c)
      {
        if steps[0].RemoveBitmap? || steps[0].c != c {
          StepFrame(s, steps[0], c);
          RecordStays(s, steps[0], c);
        } else if c in s.calls && s.calls[c].phase.Ready? {
          RecordStays(s, steps[0], c);
        } else {
          OkMeansRecorded(s, steps[0]);
        }
      }
      RunKeepsRecords(t, steps[1..]);
    }
  }

  /** No lost updates: under the lock, and with no merge that wipes out a block it did not read, a call that returned OK
      through a bitmap file has its blocks recorded there, and every block ever recorded stays recorded. */
  lemma RecordedForever(start: State, before: seq<Step>, later: seq<Step>, c: nat)
    requires Init(start) && Legal(true, start, before) && RunMergesKeep(start, before)
    requires Legal(true, After(true, start, before), later) && RunMergesKeep(After(true, start, before), later)
    requires c in After(true, start, before).calls
    requires After(true, start, before).calls[c].phase.Ready? && After(true, start, before).calls[c].phase.via.Some?
    ensures var Call(r, p) := After(true, start, before).calls[c];
      var s := After(true, After(true, start, before), later);
      && 0 < r.length && p.via.value in s.bitmaps
      && Bitmap.AllSet(s.bitmaps[p.via.value], r.FirstBlock(), r.LastBlock())
  {
    LockedRun(start, before);
    RunKeepsRecords(start, before);
    var mid := After(true, start, before);
    assert RecordOk(mid, c);
    LockedRun(mid, later);
  }
}
