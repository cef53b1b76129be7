# DYAD, verified

A Dafny model of the hard parts of DYAD, the data mover that brings files from producers to consumers on other nodes,
with proofs of what those parts promise. `dafny verify dfyconfig.toml` checks everything.

**Range cache** (`BlockMath`, `Bitmap`, `BufferBounds`, `RangeCache`, `RangeCacheProofs`, `RangeCacheRuns`,
`RangeCacheSolo`, `RangeCacheProgress`, `RangeCacheLosses`, `RecordLocks`, `RecordLocksProgress`). Any number of threads
and processes call `dyad_range_cache_ensure` on one local file, one immutable origin and one bitmap file. Every phase of
a call is an atomic step: open, fast check, exclusive lock, sizing of the local file, sizing of the bitmap, re-check, a
fetch with no lock held that is split into any number of writes, re-lock, read, merge and write of the bitmap. Any call
may fail at any phase, a read may be short, and the bitmap may be unlinked at any time (callers that have it open keep
the old file). The machine has two forms, with and without the exclusive lock: soundness is proved for both, and only
"no recorded block is lost" needs the lock. `RangeCacheSolo` has what the cache is for: a recorded range is a hit, and
is not fetched again. `RangeCacheProgress` has that calls never wait for each other in a circle. `RecordLocks` looks at
the lock again as POSIX has it: owned by a process, with a mutex inside, and dropped by any close of the file. After OK
a call may read its range back, as a worker does in chunks or as a consumer on the node does at once.

**Fetch pool** (`FetchPool`, `FetchPoolProofs`, `FetchPoolRuns`, `FetchPoolOrder`, `FetchPoolProgress`, `WorkQueue`,
`RangeReader`, `Transport`). The broker module's reactor thread, worker threads that sleep and are signalled, work
queue, completion queue and wakeup pipe as a machine with explicit ownership; the two queues as heap linked lists; the
worker's chunked read into its buffer; and the transport's single slot with the request state detached from it.
`RangeService` runs the pool and the caches together.

**Consume** (`Consume`, `ConsumeProgress`). Many consumers on one node race for one file of a remote producer.

**Eviction** (`Eviction`, `EvictionLoop`, `EvictionDecision`, `Evictors`, `EvictorsProgress`). The directory scan with
its growing array, the greedy loop with 64-bit totals, the double-checked decision around it, and many evictors at once,
whose scans meet one file at a time while the others delete.

**Codecs and names** (`Base64`, `Base64Proofs`, `Base64Meaning`, `Paths`, `PathHash`, `PathKey`, `AddressCache`). The
Base64 codec of RFC 4648 section 4 over any alphabet, the joining and extraction of paths on C strings, the hash test in
front of the extraction, the publication key, and the cache of resolved network addresses.

`Files` has the three file operations that the other modules share, and `Sums` the sums in which progress is added up. Concurrent protocols are datatypes with a step
function, and their theorems quantify over every legal run from an initial state. Code that fills buffers, tables and
lists is written as methods on arrays and objects, each proved against a function whose properties are then proved as
lemmas.

Outside calls (Flux, Margo, POSIX) appear as what they may answer: a parameter of a method or a choice in a step.
MurmurHash3 is a parameter: any function of a buffer and a seed.

## Where the code does less than it seems to

Each of these is proved as an exact condition, for all inputs.

- A published file that is empty is fetched again by every consumer, since the size test cannot tell it from a file
  that was not fetched yet; the fetch happens at most once on every run exactly when the content is not empty.
- The Base64 decoder fills a short last group with `A`, whatever the alphabet is. Decoding an encoding gives the bytes
  back exactly when the length is a multiple of three or the alphabet has `A` in it, at any position.
- `gen_path_key` is documented to fail when the key does not fit, but it checks only the hashed levels; the path behind
  them is cut off silently. The key can be read back exactly when all of it fits, and two cut keys are equal exactly
  when the levels agree and the paths agree as far as they were printed.
- `concat_str` counts the connector even when it replaces one that is already there: a path that was extracted from a
  buffer can be joined again in the room it came from exactly when the prefix had no trailing delimiter (or the
  delimiter is empty).
- `extract_user_path` writes no terminator; the result is a C string exactly when a terminator was there before.
- The re-check and the merge of the range cache index copies of the bitmap that are sized from the origin with block
  numbers from the request, and compare nothing. A call whose reads and writes work leaves a copy exactly when the request ends past the blocks that
  the bitmap's bytes can hold and either starts in a block of the origin or finds every bit set from there to the end of
  the copy; in all other cases past the end the re-check stops first, and the fetch refuses. No request inside the
  origin does.
- The merge ignores how much of the bitmap its read returned. With the lock, the recorded blocks only grow along a run
  exactly when no merge writes a byte that it has not read and that has another block's bit; a run from the start shows
  a block being lost.
- A process loses its record lock on the bitmap file whenever one of its threads closes the file, which each call does
  outside the mutex. No run loses a recorded block exactly when callers of different processes are each the only one in
  theirs (or record the same blocks); two threads of one process and one of another are enough to lose one.
- The low-water mark is computed in doubles: every share of up to the whole capacity gives a mark within the capacity
  exactly when the capacity is not rounded up.
- A comment in `dyad_fetch_metadata` says that shared storage skips the transfer; the test there is on the node alone,
  and the model follows the test.

## Model

| member | source | states |
|---|---|---|
| BlockMath.BitmapCoversOrigin | src/dyad/utils/range_cache.c:68-76 | every block of the origin, and only those, has a first byte inside it, and its bit lies inside a bitmap of the computed size |
| BlockMath.BitmapBytesIff | src/dyad/utils/range_cache.c:73-76 | and the bitmap has no byte without a block of the origin |
| BlockMath.RequestBlocks | src/dyad/utils/range_cache.c:195-196 | a non-empty request inside the origin has block numbers in order and inside the origin |
| BlockMath.RequestBlocksIff | src/dyad/utils/range_cache.c:195-196 | the blocks of a request are exactly those of 65536 bytes that have a byte in common with it |
| BlockMath.LastIndexInsideIff | src/dyad/utils/range_cache.c:260-262 | the byte of a request's last block is inside a bitmap sized from the origin exactly when the request ends within the blocks that the bitmap's bytes can hold |
| BlockMath.SpanCoversRequest | src/dyad/utils/range_cache.c:112-122 | the fetched span covers the request, stays inside the origin and exceeds the request by at most two blocks less two bytes |
| Bitmap.BitPlace | src/dyad/utils/range_cache.c:78-95 | the bit of a block is found by its place in its byte, the least significant one first |
| Bitmap.SetRangeIsUnion | src/dyad/utils/range_cache.c:89-95 | setting a run of bits is union of sets of block numbers |
| Bitmap.AllSetIsSubset | src/dyad/utils/range_cache.c:78-87 | all bits of a run are set exactly when the run is a subset of the set that the bitmap stands for |
| Bitmap.BlocksSet | src/dyad/utils/range_cache.c:78-87 | the loop answers the subset question, and reads outside the array exactly when all bits up to its end are set and the run goes on |
| Bitmap.SetBlocks | src/dyad/utils/range_cache.c:89-95 | the loop leaves exactly the old blocks and the run, or writes outside exactly when the last byte of the run is outside |
| BufferBounds.RecheckAndRecord | src/dyad/utils/range_cache.c:284-343 | re-check, test of the span and merge on the two copies come to the stated outcome, and only a recorded one changes the copy that is written |
| BufferBounds.BufferLeftIff | src/dyad/utils/range_cache.c:284-343 | exactly when a call reads or writes outside its copies, for every request and every bitmap |
| BufferBounds.CleanBufferLeftIff | src/dyad/utils/range_cache.c:284-343 | the same in terms of the request alone, for bitmaps that have bits of the origin's blocks only |
| BufferBounds.TripIff | src/dyad/utils/range_cache.c:284-343 | exactly when a call finds its blocks in the copy, and exactly when it is refused |
| BufferBounds.InRangeStaysInside | src/dyad/utils/range_cache.c:284-343 | a request inside the origin never leaves a copy, whatever the bitmap is |
| BufferBounds.PastTheOrigin | src/dyad/utils/range_cache.c:112-121 | one request that writes outside, and one past the origin whose last index is outside but which is refused before |
| RangeCacheProofs.StepKeepsBytes | src/dyad/utils/range_cache.c:101-163 | no step of any caller, locked or not, makes a right byte of the local file wrong |
| RangeCacheProofs.StepKeepsInv | src/dyad/utils/range_cache.c:165-349 | every step keeps: set bits stand for right blocks, bitmaps are empty or of full size, and each caller has what its phase relies on |
| RangeCacheRuns.SetBitsAreTrue | src/dyad/utils/range_cache.c:101-349 | in every reachable state of any number of callers, locked or not, a set bit means that the local bytes of its block are the origin's |
| RangeCacheRuns.OkIsForever | src/dyad/utils/range_cache.c:214-348 | after an OK return, on every exit, the requested bytes are the origin's then and in every later state |
| RangeCacheRuns.PayloadIsOrigin | src/dyad/client/dyad_client.c:1524-1575 | what is read back after OK, in chunks or at once, is exactly the origin's range |
| RangeCacheRuns.SizingIsFirstTouch | src/dyad/utils/range_cache.c:264-282 | with the lock a bitmap is sized only while it is empty |
| RangeCacheRuns.StepGrowsIff | src/dyad/utils/range_cache.c:246-348 | with the lock a step keeps every recorded block exactly when it is not a merge that wipes out a block it did not read |
| RangeCacheRuns.LockedRun | src/dyad/utils/range_cache.c:246-348 | with the lock the set of recorded blocks only grows along a run exactly when none of its merges wipes out a block it did not read |
| RangeCacheRuns.OkMeansRecorded | src/dyad/utils/range_cache.c:214-348 | a call has its blocks recorded when it returns OK, whatever was lost before |
| RangeCacheRuns.RecordedForever | src/dyad/utils/range_cache.c:321-348 | with the lock, and no such merge, a span recorded by a call that returned OK stays recorded, whatever others size or merge |
| RangeCacheRuns.MergeKeepsBitsIff | src/dyad/utils/range_cache.c:331-343 | exactly when a merge with a short read or a short write loses no bit |
| RangeCacheRuns.LockIsGivenBack | src/dyad/utils/range_cache.c:210-348 | in every reachable state the owner of a bitmap file's lock is a call between taking it and giving it up |
| RangeCacheRuns.LocalHasOriginSize | src/dyad/utils/range_cache.c:264-282 | once a bitmap file is sized the local file has the origin's size, then and later |
| RangeCacheSolo.FastCheckIff | src/dyad/utils/range_cache.c:214-231 | the fast check returns OK exactly when the bitmap could be read and all blocks of the request are recorded |
| RangeCacheSolo.RecheckIff | src/dyad/utils/range_cache.c:284-305 | the re-check returns OK exactly when all blocks of the request are recorded in the bytes that it read |
| RangeCacheSolo.HitReturnsAtOnce | src/dyad/utils/range_cache.c:186-231 | a call whose blocks are all recorded returns OK from the fast check, and changes neither the local file nor any bitmap |
| RangeCacheSolo.RecordedIsNotFetched | src/dyad/utils/range_cache.c:214-305 | with the lock, a call that opened a bitmap and has its blocks recorded there before its re-check takes no fetching step, whatever the others do (reads complete, no merge that wipes out) |
| RangeCacheSolo.EnsureSucceeds | src/dyad/utils/range_cache.c:165-349 | a call by itself, nothing failing, returns OK with its blocks recorded, the lock free, and no other block lost |
| RangeCacheSolo.ReadingSucceeds | src/dyad/service/flux_module/dyad.c:694-728 | after OK the worker's chunked read, nothing failing, gives exactly the origin's range |
| RangeCacheSolo.WholeReadIff | src/dyad/client/dyad_client.c:1545-1575 | after OK the consumer's single read gives exactly the origin's range if it is complete, and fails otherwise |
| RangeCacheProgress.NeverStuck | src/dyad/utils/range_cache.c:165-349 | no deadlock: while a call of the locked machine has not returned, some call can go on |
| RangeCacheProgress.EveryCallReturns | src/dyad/utils/range_cache.c:165-349 | from every reachable state of the locked machine a run of calls that do not fail is bounded, and when it cannot go on, no lock is held and every call has returned, OK if it had not returned before |
| RangeCacheProgress.RunToReturn | src/dyad/utils/range_cache.c:165-349 | and there is such a run |
| RangeCacheLosses.ShortReadLoses | src/dyad/utils/range_cache.c:331-343 | with the lock there is a run from the start in which a caller returns OK with its block recorded, and a merge whose read returns nothing loses it |
| RangeCacheLosses.UnlockedMergeLoses | src/dyad/utils/range_cache.c:321-346 | without the lock there is a run from the start, all reads and writes complete, in which a caller returns OK with its block recorded and another's merge loses it |
| RecordLocks.StepKeepsInv | src/dyad/utils/range_cache.c:321-348 | for callers that are safe, every step keeps each copy equal to the bitmap and the caller's blocks, and the bitmap grows |
| RecordLocks.NothingLostIff | src/dyad/utils/range_cache.c:301-349 | with record locks that a close drops, exactly which callers lose a recorded block on no run |
| RecordLocks.OneProcessOrOneThreadEach | src/dyad/utils/range_cache.c:40-57 | threads of one process, and processes of one thread, lose nothing |
| RecordLocks.ThreeCallersLose | src/dyad/utils/range_cache.c:301-349 | two threads of one process and one of another lose a block though each takes both locks |
| RecordLocksProgress.RunKeepsLocks | src/dyad/utils/range_cache.c:301-349 | a process's mutex and the record lock are held only by the one caller between taking and giving up, although closes drop the record lock |
| RecordLocksProgress.EveryCallerIsThrough | src/dyad/utils/range_cache.c:301-349 | runs are bounded, whatever fails, and one that cannot go on has every caller through and both locks free |
| RecordLocksProgress.EveryBlockIsRecorded | src/dyad/utils/range_cache.c:321-348 | callers that lose nothing and all merge have all their blocks recorded in the end, in any order |
| RangeReader.Clamp | src/dyad/service/flux_module/dyad.c:694-705 | the clamped length is what the file has of the request, and only a request over the end is cut |
| RangeReader.LoadRange | src/dyad/service/flux_module/dyad.c:694-728 | for every pattern of short reads the buffer holds the clamped range of the file, nothing else is written, and it fails exactly when a read brings nothing before the range is complete |
| WorkQueue.Queue.constructor | src/dyad/service/flux_module/dyad.c:993-1001 | the queue starts as an empty list |
| WorkQueue.Queue.Push | src/dyad/service/flux_module/dyad.c:639-647 | the linked list is the old one with the item behind it |
| WorkQueue.Queue.Pop | src/dyad/service/flux_module/dyad.c:754-768 | the first item is taken and unlinked, the rest stays in order, and the tail is cleared with the last |
| WorkQueue.Queue.TakeAll | src/dyad/service/flux_module/dyad.c:572-576 | the whole list is handed over at once and the queue is empty |
| WorkQueue.FinishAll | src/dyad/service/flux_module/dyad.c:578-609 | the loop over the taken list finishes every item once, in order, though each is unlinked first |
| Transport.Dtl.UnpackRange | src/dyad/dtl/flux_dtl.c:124-157 | the slot is overwritten by a decoded message and by nothing else, and path, offset and length are the message's, the numbers converted to unsigned |
| Transport.Dtl.DetachRequest | src/dyad/dtl/flux_dtl.c:289-311 | the new state holds the slot's message with a reference of its own, and the slot is empty; without memory nothing changes |
| Transport.Dtl.SendDetached | src/dyad/dtl/flux_dtl.c:313-337 | the reply goes to the requester of the state's own message, and state and reference are given up even when sending fails |
| Transport.Dtl.AbortDetached | src/dyad/dtl/flux_dtl.c:339-345 | state and reference are given up, once, and every other open state keeps its message alive |
| Transport.HeldRemove | src/dyad/dtl/flux_dtl.c:329-330 | giving up one state takes one hold from its own message and none from any other |
| FetchPoolProofs.StepConserves | src/dyad/service/flux_module/dyad.c:557-1008 | every step of reactor and workers keeps each accepted request in exactly one place |
| FetchPoolProofs.StepKeepsWakeup | src/dyad/service/flux_module/dyad.c:639-656 | every step, a refused wakeup byte included, keeps a wakeup pending for a non-empty completion queue |
| FetchPoolRuns.StepKeepsInv | src/dyad/service/flux_module/dyad.c:557-773 | every step keeps the whole invariant of ownership, consumption, routing, wakeup and shutdown |
| FetchPoolRuns.RequestInExactlyOnePlace | src/dyad/service/flux_module/dyad.c:539-773 | in every reachable state a request is in exactly one of work queue, a worker, completion queue, drained list, done |
| FetchPoolRuns.ConsumedAndClosedOnce | src/dyad/service/flux_module/dyad.c:578-638 | detached state is consumed at most once and a stream closed at most once; both exactly once when the request is done |
| FetchPoolRuns.RepliesGoToRequester | src/dyad/service/flux_module/dyad.c:918-972 | whatever order requests share the slot in, data and end of stream go to the requester whose message was unpacked |
| FetchPoolRuns.DataIsSent | src/dyad/service/flux_module/dyad.c:578-636 | a request whose detached state is consumed had its data sent to its requester if the worker found it, and was aborted and sent nothing if the worker found an error |
| FetchPoolRuns.CloseTellsOutcome | src/dyad/service/flux_module/dyad.c:583-636 | a request that is done had its stream closed with ENODATA, the worker's error, or ECOMM after a failed send of the worker's |
| FetchPoolRuns.SendFailedIff | src/dyad/service/flux_module/dyad.c:623-631 | a send counts as failed exactly when it was a worker's, of data, and the transport said so |
| FetchPoolRuns.PipeNeverOverflows | src/dyad/service/flux_module/dyad.c:568-571 | wakeup bytes never exceed what the pipe holds |
| FetchPoolOrder.TakenInOrder | src/dyad/service/flux_module/dyad.c:754-768 | workers take requests in the order in which they were accepted |
| FetchPoolOrder.AnsweredInOrder | src/dyad/service/flux_module/dyad.c:572-582 | requests are answered in the order in which workers handed them over |
| FetchPoolRuns.NoLostWakeup | src/dyad/service/flux_module/dyad.c:568-576 | a non-empty completion queue always has a byte in the pipe, a worker about to write, or the reactor about to take |
| FetchPoolProofs.EnqueueKeepsAwake | src/dyad/service/flux_module/dyad.c:995-1004 | the signal sent with a request leaves a worker awake |
| FetchPoolRuns.NoLostSignal | src/dyad/service/flux_module/dyad.c:749-768 | a queued request always has a worker that is not asleep on the condition and has not left |
| FetchPoolRuns.RestMeansAnswered | src/dyad/service/flux_module/dyad.c:557-656 | when the reactor waits and all workers are asleep or idle with nothing queued, every accepted request has been answered |
| FetchPoolRuns.StopLeavesCompletionQueue | src/dyad/service/flux_module/dyad.c:840-859 | after pool stop the unanswered requests are exactly those on the completion queue |
| FetchPoolProgress.StepLowersRank | src/dyad/service/flux_module/dyad.c:557-773 | every step of a worker or of the reactor that needs nothing from outside brings the pool nearer to a halt |
| FetchPoolProgress.NeverStuck | src/dyad/service/flux_module/dyad.c:557-773 | no deadlock: while a request is unanswered and the pool not stopped, a worker that is awake or the reactor can go on |
| FetchPoolProgress.RunToRest | src/dyad/service/flux_module/dyad.c:557-773 | from every state of the invariant there is a run of the pool alone that answers every accepted request, or, if the pool was told to stop, stops it |
| FetchPoolProgress.EveryRequestIsAnswered | src/dyad/service/flux_module/dyad.c:539-773 | from every reachable state a run of the pool alone is bounded, and when it cannot go on every accepted request is done, unless the pool was told to stop and has |
| RangeService.EverySentPayloadIsTheRequestedRange | src/dyad/service/flux_module/dyad.c:662-737 | end to end, every payload handed to a send is exactly the requested range of the origin and goes to its requester |
| RangeService.DoneMeansAnsweredAsServed | src/dyad/service/flux_module/dyad.c:557-737 | end to end, every request that is done had its range of the origin sent if its call was served, and only the worker's error if it failed; there is no third way |
| Consume.LocalIff | src/dyad/client/dyad_client.c:606-627 | the locality test takes exactly the node's own block of broker ranks for local |
| Consume.OneNodeNeverFetches | src/dyad/client/dyad_client.c:606-627 | on the producer's own node nothing is transferred or written, and OK is for a file that is there or published |
| Consume.StepKeepsInv | src/dyad/client/dyad_client.c:1234-1357 | every step of any consumer keeps the lock discipline and the state of the local file |
| Consume.LockIsGivenBack | src/dyad/client/dyad_client.c:1234-1357 | in every reachable state the lock's owner has taken it and not returned |
| Consume.CloseFreesLock | src/dyad/client/dyad_client.c:1310-1336 | a consumer that stored the content frees the lock when it closes the file |
| ConsumeProgress.StepLowersRank | src/dyad/client/dyad_client.c:1234-1357 | every step of a consumer that does not fail brings it nearer to its return |
| ConsumeProgress.NeverStuck | src/dyad/client/dyad_client.c:1234-1357 | no deadlock: once the file is published, while a consumer has not returned, some consumer can go on |
| ConsumeProgress.EveryConsumerReturns | src/dyad/client/dyad_client.c:1234-1357 | once the file is published, a run of consumers that do not fail is bounded, and when it cannot go on the lock is free and each has returned OK or had failed before |
| ConsumeProgress.RunToReturn | src/dyad/client/dyad_client.c:1234-1357 | and there is such a run |
| Consume.OkMeansPublishedContent | src/dyad/client/dyad_client.c:1234-1336 | a consumer that returned OK leaves the local file equal to the published content, then and later |
| Consume.FetchedAtMostOnce | src/dyad/client/dyad_client.c:1246-1336 | any number of consumers of a file that is not empty fetch it at most once |
| Consume.EmptyFileIsFetchedEveryTime | src/dyad/client/dyad_client.c:1246-1310 | for an empty published file there is, for every n, a run with n fetches |
| Consume.AtMostOneFetchIff | src/dyad/client/dyad_client.c:1246-1336 | every run fetches at most once exactly when the published content is not empty |
| Eviction.NextCapacity | src/dyad/cache/dyad_cache.c:66-82 | the slots needed for one more candidate: 16 at first, then twice as many when full |
| Eviction.CollectAll | src/dyad/cache/dyad_cache.c:47-89 | the loop over the directory collects exactly the candidates with their total, and fails only for want of memory |
| Eviction.Append | src/dyad/cache/dyad_cache.c:66-90 | one more entry is stored behind the others, in a grown array if need be, and fails only for want of memory |
| Eviction.CandidatesAreListed | src/dyad/cache/dyad_cache.c:47-90 | a directory entry gives exactly one entry, with what its own stat says, exactly when it is neither ".", ".." nor the lock file, is regular and has a key |
| Eviction.ScanDir | src/dyad/cache/dyad_cache.c:21-96 | the scan lists exactly the evictable files, each once and in order, with its own size, access time and key, and the 64-bit total of their sizes, or nothing when the directory cannot be opened or memory runs out |
| EvictionLoop.SortedIff | src/dyad/cache/dyad_cache.c:98-107 | an array sorted by the comparison runs from the smallest recency key to the largest |
| EvictionLoop.Evict | src/dyad/cache/dyad_cache.c:175-201 | the loop makes the described run: decisions, totals and the files left in the directory |
| EvictionLoop.DeletedNamesIff | src/dyad/cache/dyad_cache.c:175-201 | the names taken out of the directory are exactly those of the entries decided to be deleted |
| EvictionLoop.SurvivorsIff | src/dyad/cache/dyad_cache.c:175-201 | what is left is exactly what was not deleted, examined or not |
| EvictionLoop.FreedPlusSurvivors | src/dyad/cache/dyad_cache.c:194-198 | freed bytes and bytes left are the scanned total, for every pattern of skips |
| EvictionLoop.TrackedIsExact | src/dyad/cache/dyad_cache.c:175-201 | the 64-bit total never underflows and is the size of what is left |
| EvictionLoop.DeletionsAreJustified | src/dyad/cache/dyad_cache.c:175-201 | no deleted file was in its grace period, every file with a smaller key was deleted or skipped before, and usage was above the mark |
| EvictionLoop.ExitIsJustified | src/dyad/cache/dyad_cache.c:175-201 | on exit usage is at or below the mark, or every file was examined and the survivors are exactly those that were skipped |
| EvictionLoop.RunIsUnique | src/dyad/cache/dyad_cache.c:175-201 | the description determines every decision |
| EvictionDecision.MarkWithinCapacity | src/dyad/cache/dyad_cache.c:171-171 | with any rounding, exactly when no share of up to the whole capacity gives a mark above the capacity |
| EvictionDecision.OnlyOldFilesAreDeleted | src/dyad/cache/dyad_cache.c:47-201 | from the directory to the deletion: only a regular file with a key, not the lock file, whose own access time is past its grace period is deleted |
| EvictionDecision.KeysOrderDeletions | src/dyad/cache/dyad_cache.c:47-201 | from the directory to the deletion: every evictable file with a smaller key had its turn before a deleted one |
| EvictionDecision.Look | src/dyad/cache/dyad_cache.c:130-138 | a look is over capacity exactly when the scan succeeds and its total exceeds the capacity |
| EvictionDecision.EvictLocked | src/dyad/cache/dyad_cache.c:157-201 | the second look and the loop on its sorted listing |
| EvictionLoop.SameTotal | src/dyad/cache/dyad_cache.c:172-172 | sorting the entries does not change their total |
| EvictionDecision.MaybeEvict | src/dyad/cache/dyad_cache.c:109-205 | files are deleted only when both looks at the directory come to more than the capacity and the lock is held, then exactly by the loop's run, and only evictable files outside their grace period |
| Evictors.ListedBound | src/dyad/cache/dyad_cache.c:47-89 | files that were met once each and are there take no more than all files |
| Evictors.ListedCovers | src/dyad/cache/dyad_cache.c:47-89 | what was met takes no less than the files, if every file was met |
| Evictors.StepKeepsInv | src/dyad/cache/dyad_cache.c:130-205 | every step of any evictor, each file that a scan meets being one, keeps: loop only under the lock, sums exact, no deletion without excess |
| Evictors.UnlockedExitIsRight | src/dyad/cache/dyad_cache.c:130-138 | an evictor that leaves after the first scan, whatever others deleted during it, leaves a directory within capacity |
| Evictors.FirstLookIsRight | src/dyad/cache/dyad_cache.c:130-138 | the first look sends its evictor away exactly when its sum is within capacity, and then usage is |
| Evictors.SecondLookIff | src/dyad/cache/dyad_cache.c:157-169 | the second look goes into the loop exactly when usage exceeds the capacity, and otherwise gives the lock back |
| Evictors.RescanSumIsUsage | src/dyad/cache/dyad_cache.c:157-164 | the sum of the second scan is the actual usage when the scan ends, because of the lock |
| Evictors.TrackedTotalIsUsage | src/dyad/cache/dyad_cache.c:157-201 | with many evictors, the one in its loop is alone, tracks the actual usage, and entered with usage over capacity |
| Evictors.FinishedLoopIsRun | src/dyad/cache/dyad_cache.c:171-201 | what one evictor among many does is the loop by itself on the sorted entries of its scan, and usage is what that run leaves |
| Evictors.FinishIsJustified | src/dyad/cache/dyad_cache.c:175-201 | when an eviction finishes, usage is down to the mark, or every file left is too recent or could not be removed |
| Evictors.DeletionsAreOldAndInOrder | src/dyad/cache/dyad_cache.c:175-201 | with many evictors, each deleted file was past its grace period, and every file left with a smaller key had its turn before |
| Evictors.LockIsGivenBack | src/dyad/cache/dyad_cache.c:142-205 | in every reachable state the directory lock's owner is scanning again or in its loop |
| Evictors.LateEvictorDeletesNothing | src/dyad/cache/dyad_cache.c:157-169 | an evictor that got the lock with usage within capacity deletes nothing |
| Evictors.SufficientEvictionIsFinal | src/dyad/cache/dyad_cache.c:142-205 | after a sufficient eviction no evictor, waiting or later, deletes anything |
| Evictors.ExamineNeverUnderflows | src/dyad/cache/dyad_cache.c:194-198 | the loop's subtraction never underflows |
| EvictorsProgress.NeverStuck | src/dyad/cache/dyad_cache.c:109-205 | no deadlock: while an evictor has not finished, some evictor can go on |
| EvictorsProgress.StepLowersRank | src/dyad/cache/dyad_cache.c:109-205 | every step of an evictor brings the evictors nearer to their end |
| EvictorsProgress.EveryEvictorFinishes | src/dyad/cache/dyad_cache.c:109-205 | from every reachable state a run of the evictors there is bounded, and when it cannot go on all have finished and the lock is free |
| EvictorsProgress.RunToFinish | src/dyad/cache/dyad_cache.c:109-205 | and there is such a run |
| Base64.Maps.constructor | src/dyad/utils/base64/base64.c:46-55 | both tables agree with the alphabet on every character, the last occurrence winning |
| Base64.Maps.ToLetter | src/dyad/utils/base64/base64.c:15-20 | the letter of a six-bit value |
| Base64.Maps.FromLetter | src/dyad/utils/base64/base64.c:28-39 | the value of a character, or the mark of characters outside the alphabet |
| Base64.EncodeLength | src/dyad/utils/base64/base64.c:57-60 | an encoding has exactly the computed length |
| Base64.EncodeTripletUsingMaps | src/dyad/utils/base64/base64.c:62-72 | four letters for three bytes |
| Base64.EncodeTailUsingMaps | src/dyad/utils/base64/base64.c:74-86 | one or two leftover bytes with padding |
| Base64.EncodeInto | src/dyad/utils/base64/base64.c:88-119 | the destination holds the encoding and zeros behind it, or is untouched when it is too small |
| Base64.DecodeQuartetUsingMaps | src/dyad/utils/base64/base64.c:126-149 | three bytes for four letters, or a failure |
| Base64.DecodeTailUsingMaps | src/dyad/utils/base64/base64.c:151-179 | the last group with its padding thrown away, and failure for a single letter |
| Base64.DecodeInto | src/dyad/utils/base64/base64.c:181-212 | the destination holds the decoding and zeros behind it; nothing outside it is written, and a destination that is too small is untouched |
| Base64Proofs.SixBitMeaning | src/dyad/utils/base64/base64.c:28-44 | a character has a value exactly when it is in the alphabet, and the value's letter is the character |
| Base64Proofs.RoundTrip | src/dyad/utils/base64/base64.c:46-212 | decoding an encoding gives the bytes back exactly when their number is a multiple of three or the alphabet has the filler character |
| Base64Proofs.AcceptsExactly | src/dyad/utils/base64/base64.c:126-212 | the decoder accepts exactly the inputs of letters with a stripped last group that is not of length one, and the filler where it is needed |
| Base64Proofs.DecodedLengthIs | src/dyad/utils/base64/base64.c:121-124 | the number of bytes decoded, never more than the computed length |
| Base64Proofs.EncodingIsCanonical | src/dyad/utils/base64/base64.c:74-86 | encodings are canonical in the sense of RFC 4648 section 3.5 |
| Base64Proofs.ReencodesIff | src/dyad/utils/base64/base64.c:126-212 | an accepted input is the encoding of what it decodes to exactly when it is canonical |
| Base64Meaning.TripletMeaning | src/dyad/utils/base64/base64.c:62-72 | the four characters of three bytes stand in the alphabet at the digits to base 64 of the number whose digits to base 256 the bytes are |
| Base64Meaning.EncodingMeaning | src/dyad/utils/base64/base64.c:62-119 | the same for every group of an encoding, with zeros for missing bytes and one or two characters 61 in place of the letters that stand for them |
| Base64Meaning.EncodedLengthIff | src/dyad/utils/base64/base64.c:57-60 | an encoding has four characters for every three bytes begun |
| Base64Meaning.DecodedLengthIff | src/dyad/utils/base64/base64.c:121-124 | the decoder asks for three bytes for every four characters begun |
| Base64Meaning.ValueIsLastPlace | src/dyad/utils/base64/base64.c:28-55 | the value of a character is its last place in the alphabet, and 0xff if it has none |
| Base64Meaning.DecodingMeaning | src/dyad/utils/base64/base64.c:126-212 | the bytes of every group of a decoding are the leading digits to base 256 of the number that its characters, and the filler, are the digits of |
| Paths.ExtractIff | src/dyad/utils/utils.c:163-227 | extraction gives u exactly when u is not empty, the full path is the join of prefix and u, and both fit |
| Paths.JoinReads | src/dyad/utils/utils.c:130-152 | joining puts one delimiter behind a prefix that has none at its end, and none behind one that has |
| Paths.JoinThenExtract | src/dyad/utils/utils.c:115-227 | a joined relative path comes back, with or without a trailing delimiter on the prefix |
| Paths.ExtractThenJoin | src/dyad/utils/utils.c:115-227 | the full path comes back from the extracted relative path |
| Paths.SharedRelativePath | src/dyad/utils/utils.c:115-227 | producer and consumer recover their own full paths, and each other's relative path, from the relative path alone |
| Paths.JoinFitsWhereItCameFromIff | src/dyad/utils/utils.c:120-128 | exactly when an extracted path can be joined again in the room that it came from |
| Paths.ConcatStr | src/dyad/utils/utils.c:115-161 | succeeds exactly when old text, connector, appended text and a terminator fit in the capacity; then the buffer holds the join, which is the full path that the parts were extracted from, and otherwise it is untouched |
| Paths.FullPath | src/dyad/service/flux_module/dyad.c:939-940 | the managed directory copied into the path buffer and joined with the relative path restores every full path that fits with one delimiter more |
| Paths.ExtractUserPath | src/dyad/utils/utils.c:163-227 | the characters of the relative path are written and nothing else, or nothing at all on failure |
| Paths.ExtractedTextIff | src/dyad/utils/utils.c:219-226 | exactly when the output buffer is a C string afterwards |
| PathHash.HashStr | src/dyad/utils/utils.c:63-86 | the hash of a whole managed path |
| PathHash.HashPathPrefix | src/dyad/utils/utils.c:88-113 | the hash of a prefix is what the other routine gives for the prefix alone, and 0 for an empty or missing one |
| PathHash.FilterIsTransparent | src/dyad/utils/utils.c:264-278 | the hash test never rejects a path that the extraction accepts |
| PathHash.MatchIff | src/dyad/utils/utils.c:229-303 | the matcher finds a relative path whenever the path, or its canonical form, is one below the managed directory or its canonical form, in that order, and answers with nothing else |
| PathHash.CmpCanonicalPathPrefix | src/dyad/utils/utils.c:229-303 | the four passes give the same answer and relative path as the matcher with no hash test |
| PathKey.GenPathKey | src/dyad/client/dyad_client.c:76-129 | fails exactly when there is nothing to print or the levels do not fit, and otherwise leaves the key, cut to the buffer |
| PathKey.PrintLevels | src/dyad/client/dyad_client.c:108-120 | the loop prints every level's bin behind the one before, with the carried seed |
| PathKey.HexHasNoDot | src/dyad/client/dyad_client.c:114-114 | a printed bin has no dot in it |
| PathKey.HexReads | src/dyad/client/dyad_client.c:114-114 | printing a bin in hexadecimal and reading it are inverse, without leading zeros |
| PathKey.SeedsAre | src/dyad/client/dyad_client.c:84-113 | the seeds of the first ten levels, and how the carried seed goes round the table for all others |
| PathKey.KeyTellsBins | src/dyad/client/dyad_client.c:108-120 | each level of a key, read back, is the hash of the padded path under that level's seed, modulo the width |
| PathKey.KeyParses | src/dyad/client/dyad_client.c:108-121 | dropping the first segments of a whole key recovers the path, whatever the hash |
| PathKey.KeysEqualIff | src/dyad/client/dyad_client.c:76-129 | whole keys are equal exactly when the paths are |
| PathKey.StoredKeyParsesIff | src/dyad/client/dyad_client.c:121-128 | a key left in the buffer can be read back exactly when all of it fits |
| PathKey.FitsForEveryHashIff | src/dyad/client/dyad_client.c:108-128 | a key fits whatever the hash is exactly when the buffer has room for the path and the largest bin at every level |
| PathKey.StoredKeysEqualIff | src/dyad/client/dyad_client.c:108-128 | exactly when two calls leave the same key, cut or not |
| PathKey.CutKeysCollide | src/dyad/client/dyad_client.c:121-128 | two different paths whose keys are cut to the same text |
| AddressCache.Cache.Lookup | src/dyad/dtl/margo_dtl.c:437-486 | one lookup on the growing array: first match, resolution, growth, and the cache left alone on every failure but for its capacity |
| AddressCache.FindFirst | src/dyad/dtl/margo_dtl.c:443-448 | an address is found by equality of the whole text, and its first entry wins |
| AddressCache.AnswerIs | src/dyad/dtl/margo_dtl.c:437-486 | exactly when a lookup succeeds, cannot resolve, or lacks memory, what it keeps, and which handle it gives back |
| AddressCache.LookBinds | src/dyad/dtl/margo_dtl.c:437-486 | a lookup binds at most its own address, and only one that had no handle |
| AddressCache.FirstAnswerIsKept | src/dyad/dtl/margo_dtl.c:443-448 | over any sequence of lookups an address keeps the handle of its first success, and is never resolved again |
| AddressCache.AskedIffNew | src/dyad/dtl/margo_dtl.c:443-459 | a lookup resolves its address exactly when no lookup before it succeeded for it |
| AddressCache.HandlesConserved | src/dyad/dtl/margo_dtl.c:450-485 | every handle produced is either cached or was given back, once |
| AddressCache.CapacityIsBounded | src/dyad/dtl/margo_dtl.c:461-474 | the entries always fit, in at most twice the room that they need |

## Left out

- RangeCacheRuns.LockedRun: takes the mutex and the file lock as one lock for each bitmap file; what becomes of it when a close drops the file lock is RecordLocks.NothingLostIff, on bitmaps as sets of blocks and for the last part of the calls. Soundness does not use the lock.
- RecordLocks.NothingLostIff: the first part of a call, which sizes the bitmap and looks at it but records nothing, appears only as a return; reads and writes of the bitmap are complete.
- RangeCacheSolo.RecordedIsNotFetched: is about calls that opened the bitmap before it was unlinked, whose own re-check reads the bitmap in full, and runs in which no merge wipes out a block that it did not read; without the last two a recorded block can be missed, or lost as in RangeCacheLosses.
- RangeCacheRuns.SetBitsAreTrue: is about requests inside a fixed origin, without eviction of the local data file; only the bitmap may be removed. What the buffers do outside that case is BufferBounds.BufferLeftIff.
- RangeService.EverySentPayloadIsTheRequestedRange: is about requests inside the origin, served through the pool with an origin configured.
- Consume.FetchedAtMostOnce: counts fetches that delivered the content, in node-local storage with file locks in use, one process for each consumer, stores and the opening for them not failing, and eviction off. The branches for shared storage, for locks switched off and for a producer on the same node that is still writing are not modelled.
- EvictionDecision.MaybeEvict: takes the sorted array as given (qsort is foreign code), rounding as any order-preserving function, and scanned totals below 2^64; the two looks may meet any two directories, and Evictors ties them to one that evictors share. Opening the lock file is part of locking, and a policy that is switched off is a capacity of 0.
- Evictors.TrackedTotalIsUsage: is about runs in which only evictors delete files and nobody adds any; every file is a regular file that the policy has a key for.
- Base64.Maps.constructor: the pregenerated table of the RFC 4648 alphabet is not compared with what this builds.
- Paths.ConcatStr: null pointers and overlapping buffers; the arguments are values.
- PathKey.GenPathKey: levels with a width of 0, which divide by zero in the code; the four words of the hash are taken as one, already combined.
- Transport.Dtl.DetachRequest: models the Flux transport; Margo's does the same with a borrowed address instead of a counted message.
- FetchPoolProgress.EveryRequestIsAnswered and the other results about progress: file reads are taken to return; that the scheduler lets every thread go on is not modelled.
- Liveness of consumers: the same-node consumer that waits while the producer locks the file.
- Resolution of the real path of a file is a parameter of the path matcher.
- The exits of the consume functions for failing writes and closes.
- The fallback without a pool, the start of the pool, and the whole-file request handler.
- Whether the end of stream follows a send that worked: a failed send on the reactor thread is only logged.
- MurmurHash3, the UCX transport and its endpoint cache, Margo's finalisation, and the Flux key-value store.
- Initialisation, environment variables, wrappers, streams, Python bindings, logging and profiling.
