/** The lazy range cache as a step machine. Any number of callers of dyad_range_cache_ensure (threads and processes
    alike) share a local file, an immutable origin and a bitmap file; every phase of a call is one atomic step, the
    fetch is split into arbitrarily many writes, and any call may fail at any phase. A caller whose call returned OK
    may go on to read the range back, with the worker's chunked read loop or with the consumer's single read.

    The exclusive lock is the mutex together with the file lock on one bitmap file. With `locked` false no step waits
    for it, which is the machine that soundness is proved for as well. */
module RangeCache {
  import opened BlockMath
  import opened Files
  import Bitmap

  /** Most bytes one read of the worker's loop asks for. */
  const TRANSFER_GRANULARITY: nat := 0x4000_0000

  /** Where one call is. `file` is the bitmap file the call has open: a bitmap that is unlinked and created again is
      a new file, while calls that are under way keep the old one. */
  datatype Phase =
    | Begin
    | Check(file: nat)                    // bitmap open, fast check to do
    | Miss(file: nat)                     // fast check missed, waiting for the exclusive lock
    | Sizing(file: nat)                   // locked: compare the bitmap's size with the origin's
    | LocalSized(file: nat)               // locked: local file sized, bitmap not yet
    | Sized(file: nat)                    // locked: re-check to do
    | Fetching(file: nat, done: nat)      // no lock: `done` bytes of the span are in the local file
    | Fetched(file: nat)                  // no lock: waiting for the exclusive lock to record the span
    | Merging(file: nat)                  // locked: bitmap to be read
    | Merged(file: nat, buffer: Bytes, got: nat)   // locked: `got` bytes read, bits set in the copy, to be written
    | Ready(via: Option<nat>)             // returned OK
    | Reading(rangeLen: nat, buffer: Bytes)
    | Served(payload: Bytes)
    | Failed

  datatype Call = Call(request: Request, phase: Phase)

  datatype State = State(
    origin: Bytes,
    local: Bytes,
    bitmaps: map<nat, Bytes>,    // contents of every bitmap file ever created
    name: Option<nat>,           // the one that the bitmap's path names now
    owner: map<nat, nat>,        // holder of each bitmap file's exclusive lock
    calls: map<nat, Call>)
  {
    function BitmapSize(): nat {
      BitmapBytes(NumBlocks(|origin|))
    }

    /** First byte and number of bytes of the block-aligned span that request r fetches. */
    function SpanStart(r: Request): nat {
      BlockStart(r.FirstBlock())
    }

    function SpanEnd(r: Request): nat
      requires 0 < r.length
    {
      BlockEnd(r.LastBlock(), |origin|)
    }

    function To(c: nat, phase: Phase): State
      requires c in calls
    {
      this.(calls := calls[c := calls[c].(phase := phase)])
    }

    /** Gives up every lock that c holds. */
    function Released(c: nat): State {
      this.(owner := map f | f in owner && owner[f] != c :: owner[f])
    }
  }

  datatype Step =
    | Start(c: nat, request: Request)
    | Open(c: nat, newFile: nat)
    | FastCheck(c: nat, readOk: bool)
    | Lock(c: nat)
    | SizeLocal(c: nat)
    | SizeBitmap(c: nat)
    | Recheck(c: nat, got: nat)
    | Fetch(c: nat, count: nat)
    | MergeRead(c: nat, got: nat)
    | MergeWrite(c: nat, put: nat)
    | StartReading(c: nat)
    | ReadChunk(c: nat, count: nat)
    | ReadWhole(c: nat, got: nat)
    | Fail(c: nat)
    | RemoveBitmap

  predicate Init(s: State) {
    s.bitmaps == map[] && s.name == None && s.owner == map[] && s.calls == map[]
  }

  /** The bitmap file's first `got` bytes, as pread leaves them in a zeroed buffer. */
  function ReadInto(bitmap: Bytes, got: nat, size: nat): (r: Bytes)
    requires got <= |bitmap| && got <= size
    ensures |r| == size
  {
    bitmap[..got] + Zeros(size - got)
  }

  /** Call c has a non-empty request and its bitmap file is open. */
  predicate HasFile(s: State, c: nat) {
    && c in s.calls
    && var call := s.calls[c];
    && 0 < call.request.length
    && (call.phase.Check? || call.phase.Miss? || call.phase.Sizing? || call.phase.LocalSized? || call.phase.Sized?
        || call.phase.Fetching? || call.phase.Fetched? || call.phase.Merging? || call.phase.Merged?)
    && call.phase.file in s.bitmaps
  }

  predicate Enabled(locked: bool, s: State, step: Step) {
    match step
    case Start(c, r) => c !in s.calls && r.InRange(|s.origin|)
    case Open(c, newFile) =>
      c in s.calls && s.calls[c].phase.Begin? && 0 < s.calls[c].request.length &&
      (s.name.None? ==> newFile !in s.bitmaps)
    case FastCheck(c, _) =>
      HasFile(s, c) && s.calls[c].phase.Check? && (locked ==> s.calls[c].phase.file !in s.owner)
    case Lock(c) =>
      HasFile(s, c) && (s.calls[c].phase.Miss? || s.calls[c].phase.Fetched?) &&
      (locked ==> s.calls[c].phase.file !in s.owner)
    case SizeLocal(c) => HasFile(s, c) && s.calls[c].phase.Sizing?
    case SizeBitmap(c) => HasFile(s, c) && s.calls[c].phase.LocalSized?
    case Recheck(c, got) =>
      HasFile(s, c) && s.calls[c].phase.Sized? && got <= |s.bitmaps[s.calls[c].phase.file]| && got <= s.BitmapSize()
    case Fetch(c, count) =>
      HasFile(s, c) && s.calls[c].phase.Fetching? && 0 < count &&
      var r := s.calls[c].request;
      s.SpanStart(r) + s.calls[c].phase.done + count <= s.SpanEnd(r)
    case MergeRead(c, got) =>
      HasFile(s, c) && s.calls[c].phase.Merging? && got <= |s.bitmaps[s.calls[c].phase.file]| &&
      got <= s.BitmapSize() && s.calls[c].request.LastBlock() / 8 < s.BitmapSize()
    case MergeWrite(c, put) =>
      HasFile(s, c) && s.calls[c].phase.Merged? && put <= |s.calls[c].phase.buffer|
    case StartReading(c) => c in s.calls && s.calls[c].phase.Ready?
    case ReadChunk(c, count) =>
      c in s.calls && s.calls[c].phase.Reading? && 0 < count <= TRANSFER_GRANULARITY &&
      var call := s.calls[c];
      |call.phase.buffer| + count <= call.phase.rangeLen &&
      call.request.offset + |call.phase.buffer| + count <= |s.local|
    case ReadWhole(c, got) =>
      c in s.calls && s.calls[c].phase.Ready? && got <= s.calls[c].request.length &&
      (0 < got ==> s.calls[c].request.offset + got <= |s.local|)
    case Fail(c) => c in s.calls && !s.calls[c].phase.Served?
    case RemoveBitmap => true
  }

  function Apply(s: State, step: Step): State
    requires Enabled(false, s, step)
  {
    match step
    case Start(c, r) =>
      // an empty range returns OK before anything is opened
      s.(calls := s.calls[c := Call(r, if r.length == 0 then Ready(None) else Begin)])
    case Open(c, newFile) =>
      if s.name.Some? then s.To(c, Check(s.name.value))
      else s.(bitmaps := s.bitmaps[newFile := []], name := Some(newFile)).To(c, Check(newFile))
    case FastCheck(c, readOk) =>
      var Call(r, p) := s.calls[c];
      var bitmap := s.bitmaps[p.file];
      if |bitmap| > r.LastBlock() / 8 && readOk && Bitmap.AllSet(bitmap, r.FirstBlock(), r.LastBlock())
      then s.To(c, Ready(Some(p.file)))
      else s.To(c, Miss(p.file))
    case Lock(c) =>
      var p := s.calls[c].phase;
      s.(owner := s.owner[p.file := c]).To(c, if p.Miss? then Sizing(p.file) else Merging(p.file))
    case SizeLocal(c) =>
      var p := s.calls[c].phase;
      if |s.bitmaps[p.file]| < s.BitmapSize()
      then s.(local := Truncate(s.local, |s.origin|)).To(c, LocalSized(p.file))
      else s.To(c, Sized(p.file))
    case SizeBitmap(c) =>
      var p := s.calls[c].phase;
      s.(bitmaps := s.bitmaps[p.file := Truncate(s.bitmaps[p.file], s.BitmapSize())]).To(c, Sized(p.file))
    case Recheck(c, got) =>
      var Call(r, p) := s.calls[c];
      var buffer := ReadInto(s.bitmaps[p.file], got, s.BitmapSize());
      s.Released(c).To(c, if Bitmap.AllSet(buffer, r.FirstBlock(), r.LastBlock())
                          then Ready(Some(p.file)) else Fetching(p.file, 0))
    case Fetch(c, count) =>
      var Call(r, p) := s.calls[c];
      var at := s.SpanStart(r) + p.done;
      s.(local := WriteAt(s.local, at, s.origin[at..at + count]))
      .To(c, if at + count == s.SpanEnd(r) then Fetched(p.file) else Fetching(p.file, p.done + count))
    case MergeRead(c, got) =>
      var Call(r, p) := s.calls[c];
      var buffer := ReadInto(s.bitmaps[p.file], got, s.BitmapSize());
      s.To(c, Merged(p.file, Bitmap.SetRange(buffer, r.FirstBlock(), r.LastBlock()), got))
    case MergeWrite(c, put) =>
      var p := s.calls[c].phase;
      s.(bitmaps := s.bitmaps[p.file := WriteAt(s.bitmaps[p.file], 0, p.buffer[..put])]).Released(c)
      .To(c, if put == |p.buffer| then Ready(Some(p.file)) else Failed)
    case StartReading(c) =>
      var r := s.calls[c].request;
      // clamp against the real file size
      var rangeLen := if r.offset >= |s.local| then 0
                      else if r.End() > |s.local| then |s.local| - r.offset
                      else r.length;
      s.To(c, if rangeLen == 0 then Served([]) else Reading(rangeLen, []))
    case ReadChunk(c, count) =>
      var Call(r, p) := s.calls[c];
      var at := r.offset + |p.buffer|;
      var buffer := p.buffer + s.local[at..at + count];
      s.To(c, if |buffer| == p.rangeLen then Served(buffer) else Reading(p.rangeLen, buffer))
    case ReadWhole(c, got) =>
      // a consumer on the node reads the range at once, and takes nothing less than all of it
      var r := s.calls[c].request;
      s.To(c, if got == r.length then Served(if got == 0 then [] else s.local[r.offset..r.offset + got]) else Failed)
    case Fail(c) => s.Released(c).To(c, Failed)
    case RemoveBitmap => s.(name := None)
  }

  /** A run: every step is enabled where it is taken. */
  predicate Legal(locked: bool, s: State, steps: seq<Step>)
    decreases |steps|
  {
    steps == [] ||
    (Enabled(locked, s, steps[0]) && Enabled(false, s, steps[0]) && Legal(locked, Apply(s, steps[0]), steps[1..]))
  }

  function After(locked: bool, s: State, steps: seq<Step>): State
    requires Legal(locked, s, steps)
    decreases |steps|
  {
    if steps == [] then s else After(locked, Apply(s, steps[0]), steps[1..])
  }
}
