/** What every run of the range cache keeps: bytes that are right stay right, a set bit never lies, an OK return is
    never retracted, the bytes read back are the origin's; and, with the exclusive lock, no recorded bit is lost. */
module RangeCacheProofs {
  import opened BlockMath
  import opened Files
  import opened RangeCache
  import Bitmap

  // ---------------------------------------------------------------- bytes

  /** Byte i of the local file is there and is the origin's. */
  ghost predicate ByteOk(s: State, i: nat) {
    i < |s.origin| && i < |s.local| && s.local[i] == s.origin[i]
  }

  ghost predicate RangeOk(s: State, lo: nat, hi: nat) {
    forall i: nat | lo <= i < hi :: ByteOk(s, i)
  }

  /** Block b exists and all its bytes, clamped at end of file, are the origin's. */
  ghost predicate BlockOk(s: State, b: nat) {
    b < NumBlocks(|s.origin|) && RangeOk(s, BlockStart(b), BlockEnd(b, |s.origin|))
  }

  /** The piece is what the origin has at its place. */
  predicate IsPiece(origin: Bytes, at: nat, piece: Bytes) {
    at + |piece| <= |origin| && piece == origin[at..at + |piece|]
  }

  /** Copying bytes of the origin to their own place makes them right and keeps right bytes right. */
  lemma CopiedByte(s: State, t: State, at: nat, piece: Bytes, i: nat)
    requires piece != [] && IsPiece(s.origin, at, piece)
    requires t.origin == s.origin && t.local == WriteAt(s.local, at, piece)
    ensures at <= i < at + |piece| ==> ByteOk(t, i)
    ensures ByteOk(s, i) ==> ByteOk(t, i)
  {
    if at <= i < at + |piece| {
      assert t.local[at + (i - at)] == piece[i - at] == s.origin[i];
    }
  }

  /** What a fetch does to the local file, and where. */
  lemma FetchCopies(s: State, step: Step) returns (at: nat, piece: Bytes)
    requires Enabled(false, s, step) && step.Fetch?
    ensures at == s.SpanStart(s.calls[step.c].request) + s.calls[step.c].phase.done
    ensures IsPiece(s.origin, at, piece) && |piece| == step.count
    ensures var t := Apply(s, step);
      t.origin == s.origin && t.bitmaps == s.bitmaps && t.local == WriteAt(s.local, at, piece)
  {
    at := s.SpanStart(s.calls[step.c].request) + s.calls[step.c].phase.done;
    piece := s.origin[at..at + step.count];
  }

  lemma FetchKeepsBytes(s: State, step: Step)
    requires Enabled(false, s, step) && step.Fetch?
    ensures Apply(s, step).origin == s.origin
    ensures forall i: nat | ByteOk(s, i) :: ByteOk(Apply(s, step), i)
  {
    var at, piece := FetchCopies(s, step);
    var t := Apply(s, step);
    forall i: nat | ByteOk(s, i)
      ensures ByteOk(t, i)
    {
      CopiedByte(s, t, at, piece, i);
    }
  }

  /** The local file is extended or left alone by every step but a fetch. */
  lemma LocalStays(s: State, step: Step)
    requires Enabled(false, s, step) && !step.Fetch?
    ensures Apply(s, step).origin == s.origin
    ensures Apply(s, step).local == s.local || Apply(s, step).local == Truncate(s.local, |s.origin|)
  {
  }

  /** No step of any caller, locked or not, makes a right byte wrong. */
  lemma StepKeepsBytes(s: State, step: Step)
    requires Enabled(false, s, step)
    ensures Apply(s, step).origin == s.origin
    ensures forall i: nat | ByteOk(s, i) :: ByteOk(Apply(s, step), i)
  {
    if step.Fetch? {
      FetchKeepsBytes(s, step);
    } else {
      LocalStays(s, step);
      var t := Apply(s, step);
      forall i: nat | ByteOk(s, i)
        ensures ByteOk(t, i)
      {
      }
    }
  }

  // ---------------------------------------------------------------- soundness

  /** Every set bit of a bitmap stands for a block whose bytes are right. */
  ghost predicate BitsOk(s: State, bitmap: Bytes) {
    forall b: nat | Bitmap.Bit(bitmap, b) :: BlockOk(s, b)
  }

  /** What call c may rely on in each phase. */
  ghost predicate CallOk(s: State, call: Call) {
    var r := call.request;
    && r.InRange(|s.origin|)
    && match call.phase
       case Begin => 0 < r.length
       case Check(f) => 0 < r.length && f in s.bitmaps
       case Miss(f) => 0 < r.length && f in s.bitmaps
       case Sizing(f) => 0 < r.length && f in s.bitmaps
       case LocalSized(f) => 0 < r.length && f in s.bitmaps
       case Sized(f) => 0 < r.length && f in s.bitmaps && |s.bitmaps[f]| == s.BitmapSize()
       case Fetching(f, done) =>
         && 0 < r.length && f in s.bitmaps && |s.bitmaps[f]| == s.BitmapSize()
         && s.SpanStart(r) + done < s.SpanEnd(r)
         && RangeOk(s, s.SpanStart(r), s.SpanStart(r) + done)
       case Fetched(f) => 0 < r.length && f in s.bitmaps && |s.bitmaps[f]| == s.BitmapSize() && SpanOk(s, r)
       case Merging(f) => 0 < r.length && f in s.bitmaps && |s.bitmaps[f]| == s.BitmapSize() && SpanOk(s, r)
       case Merged(f, buffer, _) =>
         && 0 < r.length && f in s.bitmaps && |s.bitmaps[f]| == s.BitmapSize() && SpanOk(s, r)
         && |buffer| == s.BitmapSize() && BitsOk(s, buffer)
         && Bitmap.AllSet(buffer, r.FirstBlock(), r.LastBlock())
       case Ready(_) => RangeOk(s, r.offset, r.End())
       case Reading(rangeLen, buffer) =>
         && RangeOk(s, r.offset, r.End())
         && rangeLen == r.length && |buffer| <= r.length
         && buffer == s.origin[r.offset..r.offset + |buffer|]
       case Served(payload) => RangeOk(s, r.offset, r.End()) && payload == s.origin[r.offset..r.End()]
       case Failed => true
  }

  ghost predicate SpanOk(s: State, r: Request)
    requires 0 < r.length
  {
    RangeOk(s, s.SpanStart(r), s.SpanEnd(r))
  }

  ghost predicate Inv(s: State) {
    && (s.name.Some? ==> s.name.value in s.bitmaps)
    && (forall f | f in s.bitmaps :: BitsOk(s, s.bitmaps[f]))
    // sized once, and only while it is still empty
    && (forall f | f in s.bitmaps :: s.bitmaps[f] == [] || |s.bitmaps[f]| == s.BitmapSize())
    && (forall c | c in s.calls :: CallOk(s, s.calls[c]))
  }

  /** If all bits of a request's blocks are set in a truthful bitmap, the request's bytes are right. */
  lemma BitsGiveRange(s: State, bitmap: Bytes, r: Request)
    requires 0 < r.length && r.InRange(|s.origin|)
    requires BitsOk(s, bitmap) && Bitmap.AllSet(bitmap, r.FirstBlock(), r.LastBlock())
    ensures RangeOk(s, r.offset, r.End())
  {
    forall i: nat | r.offset <= i < r.End()
      ensures ByteOk(s, i)
    {
      ByteInBlock(r, |s.origin|, i);
      assert Bitmap.Bit(bitmap, i / BLOCK_SIZE);
    }
  }

  /** A fetched span makes every block of the request right. */
  lemma SpanGivesBlocks(s: State, r: Request, b: nat)
    requires 0 < r.length && r.InRange(|s.origin|) && SpanOk(s, r)
    requires r.FirstBlock() <= b <= r.LastBlock()
    ensures BlockOk(s, b)
  {
    RequestBlocks(r, |s.origin|);
    BlockInSpan(r, |s.origin|, b);
  }

  /** What a caller relies on survives every step that keeps its files in place and right bytes right. */
  lemma CallOkStable(s: State, t: State, call: Call)
    requires CallOk(s, call) && s.origin == t.origin
    requires forall i: nat | ByteOk(s, i) :: ByteOk(t, i)
    requires s.bitmaps.Keys <= t.bitmaps.Keys
    requires forall f | f in s.bitmaps && |s.bitmaps[f]| == s.BitmapSize() :: |t.bitmaps[f]| == s.BitmapSize()
    ensures CallOk(t, call)
  {
  }

  lemma BitsOkStable(s: State, t: State, bitmap: Bytes)
    requires BitsOk(s, bitmap) && s.origin == t.origin
    requires forall i: nat | ByteOk(s, i) :: ByteOk(t, i)
    ensures BitsOk(t, bitmap)
  {
  }

  /** A bitmap read back into a zeroed buffer, in full or in part, has no bit that the file does not have. */
  lemma ReadIntoBits(bitmap: Bytes, got: nat, size: nat, b: nat)
    requires got <= |bitmap| && got <= size
    ensures Bitmap.Bit(ReadInto(bitmap, got, size), b) <==> b / 8 < got && Bitmap.Bit(bitmap, b)
  {
    ZeroHasNoBit(b);
  }

  lemma ZeroHasNoBit(b: nat)
    ensures (0 as bv8) & Bitmap.Mask(b % 8) == 0
  {
  }

  /** A step changes the phase of its own caller only. */
  lemma StepFrame(s: State, step: Step, c: nat)
    requires Enabled(false, s, step) && c in Apply(s, step).calls && (step.RemoveBitmap? || step.c != c)
    ensures c in s.calls && Apply(s, step).calls[c] == s.calls[c]
  {
  }

  lemma {:induction false} StepKeepsInv(s: State, step: Step)
    requires Inv(s) && Enabled(false, s, step)
    ensures Inv(Apply(s, step))
  {
    var t := Apply(s, step);
    StepKeepsBytes(s, step);
    StepKeepsSizes(s, step);
    forall f | f in t.bitmaps
      ensures BitsOk(t, t.bitmaps[f])
    {
      StepKeepsBits(s, step, f);
    }
    forall c | c in t.calls
      ensures CallOk(t, t.calls[c])
    {
      if step.RemoveBitmap? || step.c != c {
        StepFrame(s, step, c);
        CallOkStable(s, t, s.calls[c]);
      } else {
        StepKeepsCaller(s, step);
      }
    }
  }

  /** A bit depends on its byte alone. */
  lemma SameByte(x: Bytes, y: Bytes, b: nat)
    requires b / 8 < |x| <==> b / 8 < |y|
    requires b / 8 < |x| ==> x[b / 8] == y[b / 8]
    ensures Bitmap.Bit(x, b) <==> Bitmap.Bit(y, b)
  {
  }

  /** A bitmap update is truthful when each bit of the new file was set before or is set in a truthful buffer. */
  lemma WriteBits(bitmap: Bytes, buffer: Bytes, put: nat, b: nat)
    requires put <= |buffer|
    ensures var written := WriteAt(bitmap, 0, buffer[..put]);
      Bitmap.Bit(written, b) <==> if b / 8 < put then Bitmap.Bit(buffer, b) else Bitmap.Bit(bitmap, b)
  {
    var k := b / 8;
    WriteByte(bitmap, buffer, put, k);
    SameByte(WriteAt(bitmap, 0, buffer[..put]), if k < put then buffer else bitmap, b);
  }

  lemma WriteByte(bitmap: Bytes, buffer: Bytes, put: nat, k: nat)
    requires put <= |buffer|
    ensures var written := WriteAt(bitmap, 0, buffer[..put]);
      && (k < |written| <==> k < put || k < |bitmap|)
      && (k < |written| ==> written[k] == if k < put then buffer[k] else bitmap[k])
  {
    if k < put {
      assert WriteAt(bitmap, 0, buffer[..put])[0 + k] == buffer[..put][k];
    }
  }

  lemma TruncateBits(bitmap: Bytes, size: nat, b: nat)
    ensures Bitmap.Bit(Truncate(bitmap, size), b) <==> b / 8 < size && Bitmap.Bit(bitmap, b)
  {
    ZeroHasNoBit(b);
  }

  lemma SizingKeepsBits(s: State, step: Step)
    requires Inv(s) && Enabled(false, s, step) && step.SizeBitmap?
    ensures BitsOk(s, Truncate(s.bitmaps[s.calls[step.c].phase.file], s.BitmapSize()))
  {
    var bitmap := s.bitmaps[s.calls[step.c].phase.file];
    forall b: nat | Bitmap.Bit(Truncate(bitmap, s.BitmapSize()), b)
      ensures BlockOk(s, b)
    {
      TruncateBits(bitmap, s.BitmapSize(), b);
    }
  }

  lemma WritingKeepsBits(s: State, step: Step)
    requires Inv(s) && Enabled(false, s, step) && step.MergeWrite?
    ensures var p := s.calls[step.c].phase;
      BitsOk(s, WriteAt(s.bitmaps[p.file], 0, p.buffer[..step.put]))
  {
    var p := s.calls[step.c].phase;
    assert CallOk(s, s.calls[step.c]);
    forall b: nat | Bitmap.Bit(WriteAt(s.bitmaps[p.file], 0, p.buffer[..step.put]), b)
      ensures BlockOk(s, b)
    {
      WriteBits(s.bitmaps[p.file], p.buffer, step.put, b);
    }
  }

  /** The two steps that write a bitmap file, sizing and recording, leave it truthful. */
  lemma UpdateKeepsBits(s: State, step: Step, f: nat)
    requires Inv(s) && Enabled(false, s, step) && (step.SizeBitmap? || step.MergeWrite?)
    requires f == s.calls[step.c].phase.file
    ensures BitsOk(Apply(s, step), Apply(s, step).bitmaps[f])
  {
    StepKeepsBytes(s, step);
    if step.SizeBitmap? {
      SizingKeepsBits(s, step);
    } else {
      WritingKeepsBits(s, step);
    }
    BitsOkStable(s, Apply(s, step), Apply(s, step).bitmaps[f]);
  }

  lemma StepKeepsSizes(s: State, step: Step)
    requires Inv(s) && Enabled(false, s, step)
    ensures var t := Apply(s, step);
      && (t.name.Some? ==> t.name.value in t.bitmaps)
      && s.bitmaps.Keys <= t.bitmaps.Keys
      && (forall f | f in s.bitmaps && |s.bitmaps[f]| == s.BitmapSize() :: |t.bitmaps[f]| == s.BitmapSize())
      && (forall f | f in t.bitmaps :: t.bitmaps[f] == [] || |t.bitmaps[f]| == t.BitmapSize())
  {
    assert step.MergeWrite? ==> CallOk(s, s.calls[step.c]);
  }

  lemma StepKeepsBits(s: State, step: Step, f: nat)
    requires Inv(s) && Enabled(false, s, step) && f in Apply(s, step).bitmaps
    ensures BitsOk(Apply(s, step), Apply(s, step).bitmaps[f])
  {
    StepKeepsBytes(s, step);
    if (step.SizeBitmap? || step.MergeWrite?) && f == s.calls[step.c].phase.file {
      UpdateKeepsBits(s, step, f);
    } else if f in s.bitmaps {
      BitsOkStable(s, Apply(s, step), s.bitmaps[f]);
    }
  }

  lemma CheckKeepsCaller(s: State, step: Step)
    requires Inv(s) && Enabled(false, s, step) && (step.FastCheck? || step.Recheck?)
    ensures CallOk(Apply(s, step), Apply(s, step).calls[step.c])
  {
    StepKeepsBytes(s, step);
    var Call(r, p) := s.calls[step.c];
    assert CallOk(s, s.calls[step.c]);
    SpanCoversRequest(r, |s.origin|);
    if step.FastCheck? {
      if Apply(s, step).calls[step.c].phase.Ready? {
        BitsGiveRange(s, s.bitmaps[p.file], r);
      }
    } else {
      forall b: nat { ReadIntoBits(s.bitmaps[p.file], step.got, s.BitmapSize(), b); }
      if Apply(s, step).calls[step.c].phase.Ready? {
        BitsGiveRange(s, ReadInto(s.bitmaps[p.file], step.got, s.BitmapSize()), r);
      }
    }
  }

  /** After a fetch the span is right up to its end. */
  lemma FetchExtends(s: State, step: Step)
    requires Inv(s) && Enabled(false, s, step) && step.Fetch?
    ensures var Call(r, p) := s.calls[step.c];
      RangeOk(Apply(s, step), s.SpanStart(r), s.SpanStart(r) + p.done + step.count)
  {
    assert CallOk(s, s.calls[step.c]);
    var Call(r, p) := s.calls[step.c];
    var at, piece := FetchCopies(s, step);
    var t := Apply(s, step);
    forall i: nat | s.SpanStart(r) <= i < at + |piece|
      ensures ByteOk(t, i)
    {
      CopiedByte(s, t, at, piece, i);
    }
  }

  lemma FetchPhase(s: State, step: Step)
    requires Enabled(false, s, step) && step.Fetch?
    ensures var t, Call(r, p) := Apply(s, step), s.calls[step.c];
      && t.origin == s.origin && t.bitmaps == s.bitmaps && step.c in t.calls
      && t.calls[step.c] == Call(r, if s.SpanStart(r) + p.done + step.count == s.SpanEnd(r) then Fetched(p.file)
                                    else Fetching(p.file, p.done + step.count))
  {
  }

  lemma FetchKeepsCaller(s: State, step: Step)
    requires Inv(s) && Enabled(false, s, step) && step.Fetch?
    ensures CallOk(Apply(s, step), Apply(s, step).calls[step.c])
  {
    FetchExtends(s, step);
    FetchPhase(s, step);
    assert CallOk(s, s.calls[step.c]);
  }

  lemma MergeReadKeepsCaller(s: State, step: Step)
    requires Inv(s) && Enabled(false, s, step) && step.MergeRead?
    ensures CallOk(Apply(s, step), Apply(s, step).calls[step.c])
  {
    StepKeepsBytes(s, step);
    var Call(r, p) := s.calls[step.c];
    var buffer := Apply(s, step).calls[step.c].phase.buffer;
    assert CallOk(s, s.calls[step.c]);
    RequestBlocks(r, |s.origin|);
    forall b: nat
      ensures Bitmap.Bit(buffer, b) ==> BlockOk(s, b)
      ensures r.FirstBlock() <= b <= r.LastBlock() ==> Bitmap.Bit(buffer, b)
    {
      var read := ReadInto(s.bitmaps[p.file], step.got, s.BitmapSize());
      ReadIntoBits(s.bitmaps[p.file], step.got, s.BitmapSize(), b);
      Bitmap.SetRangeBits(read, r.FirstBlock(), r.LastBlock(), b);
      if r.FirstBlock() <= b <= r.LastBlock() {
        SpanGivesBlocks(s, r, b);
      }
    }
    BitsOkStable(s, Apply(s, step), buffer);
  }

  lemma StartReadingKeepsCaller(s: State, step: Step)
    requires Inv(s) && Enabled(false, s, step) && step.StartReading?
    ensures CallOk(Apply(s, step), Apply(s, step).calls[step.c])
  {
    StepKeepsBytes(s, step);
    assert CallOk(s, s.calls[step.c]);
    var r := s.calls[step.c].request;
    assert 0 < r.length ==> ByteOk(s, r.End() - 1);
  }

  /** One more chunk of right bytes extends a right prefix. */
  lemma ChunkExtends(s: State, start: nat, done: nat, count: nat)
    requires RangeOk(s, start, start + done + count)
    requires start + done + count <= |s.local| && start + done + count <= |s.origin|
    ensures s.origin[start..start + done] + s.local[start + done..start + done + count]
         == s.origin[start..start + done + count]
  {
    var got, want := s.local[start + done..start + done + count], s.origin[start + done..start + done + count];
    forall k | 0 <= k < count
      ensures got[k] == want[k]
    {
      assert ByteOk(s, start + done + k);
    }
    assert got == want;
  }

  lemma ReadChunkKeepsCaller(s: State, step: Step)
    requires Inv(s) && Enabled(false, s, step) && step.ReadChunk?
    ensures CallOk(Apply(s, step), Apply(s, step).calls[step.c])
  {
    StepKeepsBytes(s, step);
    assert CallOk(s, s.calls[step.c]);
    var Call(r, p) := s.calls[step.c];
    ChunkExtends(s, r.offset, |p.buffer|, step.count);
  }

  lemma ReadWholeKeepsCaller(s: State, step: Step)
    requires Inv(s) && Enabled(false, s, step) && step.ReadWhole?
    ensures CallOk(Apply(s, step), Apply(s, step).calls[step.c])
  {
    StepKeepsBytes(s, step);
    assert CallOk(s, s.calls[step.c]);
    var r := s.calls[step.c].request;
    if 0 < step.got == r.length {
      ChunkExtends(s, r.offset, 0, step.got);
      assert s.origin[r.offset..r.offset] == [];
    }
  }

  lemma MergeWriteKeepsCaller(s: State, step: Step)
    requires Inv(s) && Enabled(false, s, step) && step.MergeWrite?
    ensures CallOk(Apply(s, step), Apply(s, step).calls[step.c])
  {
    assert CallOk(s, s.calls[step.c]);
    SpanCoversRequest(s.calls[step.c].request, |s.origin|);
    assert RangeOk(s, s.calls[step.c].request.offset, s.calls[step.c].request.End());
    StepKeepsBytes(s, step);
  }

  /** The steps that neither look at the bitmap nor move data. */
  lemma SetupKeepsCaller(s: State, step: Step)
    requires Inv(s) && Enabled(false, s, step)
    requires step.Start? || step.Open? || step.Lock? || step.SizeLocal? || step.SizeBitmap? || step.Fail?
    ensures step.c in Apply(s, step).calls && CallOk(Apply(s, step), Apply(s, step).calls[step.c])
  {
    assert step.c in s.calls ==> CallOk(s, s.calls[step.c]);
    StepKeepsBytes(s, step);
  }

  lemma StepKeepsCaller(s: State, step: Step)
    requires Inv(s) && Enabled(false, s, step) && !step.RemoveBitmap?
    ensures step.c in Apply(s, step).calls && CallOk(Apply(s, step), Apply(s, step).calls[step.c])
  {
    match step {
      case FastCheck(_, _) => CheckKeepsCaller(s, step);
      case Recheck(_, _) => CheckKeepsCaller(s, step);
      case Fetch(_, _) => FetchKeepsCaller(s, step);
      case MergeRead(_, _) => MergeReadKeepsCaller(s, step);
      case MergeWrite(_, _) => MergeWriteKeepsCaller(s, step);
      case StartReading(_) => StartReadingKeepsCaller(s, step);
      case ReadChunk(_, _) => ReadChunkKeepsCaller(s, step);
      case ReadWhole(_, _) => ReadWholeKeepsCaller(s, step);
      case _ => SetupKeepsCaller(s, step);
    }
  }
}
