/** dyad_cache_maybe_evict: the decision around the eviction loop, from what the directory says to what is deleted. */
module EvictionDecision {
  import opened Files
  import opened Eviction
  import opened EvictionLoop

  /** How doubles round: in order, and leaving alone what is a double already, zero among others. */
  ghost predicate Rounds(fl: real -> real) {
    fl(0.0) == 0.0 && (forall x, y | x <= y :: fl(x) <= fl(y)) && (forall x {:trigger fl(fl(x))} :: fl(fl(x)) == fl(x))
  }

  /** The mark that eviction goes down to, cut off to an integer: `share` is the fraction of the capacity before its
      product is rounded. */
  function LowWatermark(fl: real -> real, share: real): (mark: nat)
    requires Rounds(fl) && share >= 0.0
    ensures mark as real <= fl(share) < mark as real + 1.0
  {
    assert fl(0.0) <= fl(share);
    fl(share).Floor
  }

  lemma ShareOf(fl: real -> real, fraction: real, capacity: nat)
    requires Rounds(fl) && 0.0 <= fraction
    ensures 0.0 <= fraction * fl(capacity as real)
    ensures fraction <= 1.0 ==> fraction * fl(capacity as real) <= fl(capacity as real)
  {
    assert fl(0.0) <= fl(capacity as real);
  }

  /** Every share of up to the whole capacity gives a mark within the capacity exactly when the conversion of the
      capacity to a double does not round it up. */
  lemma MarkWithinCapacity(fl: real -> real, capacity: nat)
    requires Rounds(fl)
    ensures (forall share | 0.0 <= share <= fl(capacity as real) :: LowWatermark(fl, share) <= capacity)
       <==> fl(capacity as real).Floor <= capacity
  {
    var c := fl(capacity as real);
    assert fl(0.0) <= c && fl(c) == c;
    assert LowWatermark(fl, c) == c.Floor;
    if c.Floor <= capacity {
      forall share | 0.0 <= share <= c
        ensures LowWatermark(fl, share) <= capacity
      {
        assert fl(share) <= fl(c);
      }
    }
  }

  // ---------------------------------------------------------------- what is deleted, in terms of the directory

  /** An entry that stands in the sorted listing describes an evictable file. */
  lemma OrderedIsListed(dirents: seq<Dirent>, entries: seq<Entry>, at: seq<nat>, order: seq<Entry>, k: nat)
    returns (i: nat)
    requires IsListing(dirents, entries, at) && multiset(order) == multiset(entries) && k < |order|
    ensures i < |dirents| && Evictable(dirents[i]) && Describes(order[k], dirents[i])
  {
    assert order[k] in multiset(order);
    assert order[k] in entries;
    var j :| 0 <= j < |entries| && entries[j] == order[k];
    i := at[j];
  }

  /** Every evictable file stands in the sorted listing. */
  lemma ListedIsOrdered(dirents: seq<Dirent>, entries: seq<Entry>, at: seq<nat>, order: seq<Entry>, i: nat)
    returns (k: nat)
    requires IsListing(dirents, entries, at) && multiset(order) == multiset(entries)
    requires i < |dirents| && Evictable(dirents[i])
    ensures k < |order| && Describes(order[k], dirents[i])
  {
    var j :| 0 <= j < |at| && at[j] == i;
    assert entries[j] in multiset(entries);
    assert entries[j] in order;
    k :| 0 <= k < |order| && order[k] == entries[j];
  }

  /** No file inside its grace period is deleted, nor the lock file, nor anything that is not regular: what is deleted is
      an evictable file of the directory, whose own access time is old enough. */
  lemma OnlyOldFilesAreDeleted(dirents: seq<Dirent>, entries: seq<Entry>, at: seq<nat>, order: seq<Entry>, low: nat,
                               now: int, grace: nat, answers: seq<Answer>, log: seq<Decision>, name: string)
    requires IsListing(dirents, entries, at) && multiset(order) == multiset(entries) && |answers| <= |order|
    requires IsRun(order, Total(order), low, now, grace, answers, log) && name in DeletedNames(order, log)
    ensures exists i | 0 <= i < |dirents| ::
              dirents[i].name == name && Evictable(dirents[i]) && now - dirents[i].stat.value.atime >= grace
  {
    DeletedNamesIff(order, log, name);
    var k :| 0 <= k < |log| && log[k].Deleted? && order[k].name == name;
    var i := OrderedIsListed(dirents, entries, at, order, k);
    assert log[k] == Decide(order[k], now, grace, answers[k]);
  }

  /** Files go in the order of the keys that the policy gave for them: when one is deleted, every evictable file of the
      directory with a smaller key has had its turn, and was deleted, too recent, or not removable. */
  lemma KeysOrderDeletions(dirents: seq<Dirent>, entries: seq<Entry>, at: seq<nat>, order: seq<Entry>, low: nat,
                           now: int, grace: nat, answers: seq<Answer>, log: seq<Decision>, k: nat, j: nat)
    returns (q: nat)
    requires IsListing(dirents, entries, at) && multiset(order) == multiset(entries) && |answers| <= |order|
    requires Sorted(order) && IsRun(order, Total(order), low, now, grace, answers, log)
    requires k < |log| && log[k].Deleted? && j < |dirents| && Evictable(dirents[j])
    requires dirents[j].stat.value.key.value < order[k].key
    ensures q < k && Describes(order[q], dirents[j])
    ensures log[q].Deleted? || now - dirents[j].stat.value.atime < grace || answers[q] != Removed
  {
    q := ListedIsOrdered(dirents, entries, at, order, j);
    SmallerKeysFirst(order, now, grace, answers, log, k);
  }

  /** The name of an evictable file of the directory, outside its grace period. */
  predicate OldName(dirents: seq<Dirent>, now: int, grace: nat, name: string) {
    exists i | 0 <= i < |dirents| ::
      dirents[i].name == name && Evictable(dirents[i]) && now - dirents[i].stat.value.atime >= grace
  }

  lemma RunDeletesOldNames(dirents: seq<Dirent>, order: seq<Entry>, low: nat, now: int, grace: nat,
                           answers: seq<Answer>, log: seq<Decision>)
    requires multiset(order) == multiset(Candidates(dirents)) && |answers| <= |order|
    requires IsRun(order, Total(order), low, now, grace, answers, log)
    ensures forall name | name in DeletedNames(order, log) :: OldName(dirents, now, grace, name)
  {
    var at := CandidatesAreListed(dirents);
    forall name | name in DeletedNames(order, log)
      ensures OldName(dirents, now, grace, name)
    {
      OnlyOldFilesAreDeleted(dirents, Candidates(dirents), at, order, low, now, grace, answers, log, name);
    }
  }

  /** A scan that succeeds and comes to more than the capacity. */
  predicate Over(scan: Option<seq<Dirent>>, memory: nat, capacity: nat) {
    scan.Some? && Capacity(|Candidates(scan.value)|) <= memory && Total(Candidates(scan.value)) > capacity
  }

  /** One look at the directory. */
  method Look(scan: Option<seq<Dirent>>, memory: nat, capacity: nat)
    returns (over: bool, entries: seq<Entry>, total: nat)
    requires scan.Some? ==> Total(Candidates(scan.value)) < WORD
    ensures over <==> Over(scan, memory, capacity)
    ensures scan.Some? ==>
              (over <==> Capacity(|Candidates(scan.value)|) <= memory && Total(Candidates(scan.value)) > capacity)
    ensures over ==> entries == Candidates(scan.value) && total == Total(entries)
  {
    over, entries, total := ScanDir(scan, memory);
    over := over && total > capacity;
  }

  lemma RemovedNames(before: map<string, nat>, names: set<string>)
    ensures forall name | name in before && name !in before - names :: name in names
  {
  }

  /** What is done under the lock: the second look, and the loop on its sorted listing. */
  method EvictLocked(dir: Directory, capacity: nat, low: nat, grace: nat, now: int, scan: Option<seq<Dirent>>,
                     memory: nat, order: seq<Entry>, answers: seq<Answer>)
    returns (log: seq<Decision>)
    requires scan.Some? ==>
               multiset(order) == multiset(Candidates(scan.value)) && Sorted(order) && |answers| == |order|
    requires scan.Some? ==> Total(Candidates(scan.value)) < WORD
    modifies dir
    ensures if Over(scan, memory, capacity)
            then IsRun(order, Total(order), low, now, grace, answers, log)
                 && dir.files == old(dir.files) - DeletedNames(order, log)
            else log == [] && dir.files == old(dir.files)
    ensures forall name | name in old(dir.files) && name !in dir.files ::
              scan.Some? && OldName(scan.value, now, grace, name)
  {
    var over, entries, total := Look(scan, memory, capacity);
    if !over {
      return [];
    }
    SameTotal(order, entries);
    var freed;
    total, freed, log := Evict(dir, order, total, low, now, grace, answers);
    RunDeletesOldNames(scan.value, order, low, now, grace, answers, log);
    RemovedNames(old(dir.files), DeletedNames(order, log));
  }

  /** dyad_cache_maybe_evict: looks without the lock, locks, looks again, and only then evicts. Each look may meet another
      directory and have another amount of memory; `order` is the second one's listing as qsort arranged it. Whatever is
      gone afterwards was an evictable file of the second look, outside its grace period. */
  method MaybeEvict(dir: Directory, capacity: nat, fl: real -> real, fraction: real, grace: nat, now: int,
                    first: Option<seq<Dirent>>, memory: nat, locked: bool, second: Option<seq<Dirent>>, memory2: nat,
                    order: seq<Entry>, answers: seq<Answer>)
    returns (log: seq<Decision>)
    requires Rounds(fl) && 0.0 <= fraction
    requires second.Some? ==>
               multiset(order) == multiset(Candidates(second.value)) && Sorted(order) && |answers| == |order|
    requires first.Some? ==> Total(Candidates(first.value)) < WORD
    requires second.Some? ==> Total(Candidates(second.value)) < WORD
    modifies dir
    ensures if 0 < capacity && Over(first, memory, capacity) && locked && Over(second, memory2, capacity)
            then var share := fraction * fl(capacity as real);
                 && share >= 0.0
                 && IsRun(order, Total(order), LowWatermark(fl, share), now, grace, answers, log)
                 && dir.files == old(dir.files) - DeletedNames(order, log)
            else log == [] && dir.files == old(dir.files)
    ensures forall name | name in old(dir.files) && name !in dir.files ::
              second.Some? && OldName(second.value, now, grace, name)
  {
    log := [];
    if capacity == 0 {
      return;
    }
    var over, entries, total := Look(first, memory, capacity);
    if !over || !locked {
      return;
    }
    ShareOf(fl, fraction, capacity);
    var low := LowWatermark(fl, fraction * fl(capacity as real));
    log := EvictLocked(dir, capacity, low, grace, now, second, memory2, order, answers);
  }
}
