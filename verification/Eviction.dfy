/** Cache eviction by one process: the directory scan that collects candidates into a growing array, and the greedy
    loop that unlinks them, least recent first, until usage is down to the low-water mark. */
module Eviction {
  import opened Files

  const LOCK_FILENAME := ".dyad_cache.lock"

  /** Totals are 64-bit unsigned. */
  const WORD: nat := 0x1_0000_0000_0000_0000

  function Add64(a: nat, b: nat): nat { (a + b) % WORD }

  function Sub64(a: nat, b: nat): nat { (a - b) % WORD }

  /** One directory entry as the scan meets it: stat may fail, the entry may not be a regular file, and the policy may
      have no recency key for it. */
  datatype Dirent = Dirent(name: string, stat: Option<Stat>)

  datatype Stat = Stat(regular: bool, size: nat, atime: int, key: Option<int>)

  /** struct dyad_cache_entry */
  datatype Entry = Entry(name: string, size: nat, atime: int, key: int)

  predicate IsCandidate(d: Dirent) {
    && d.name != "." && d.name != ".." && d.name != LOCK_FILENAME
    && d.stat.Some? && d.stat.value.regular && d.stat.value.key.Some?
  }

  function ToEntry(d: Dirent): Entry
    requires IsCandidate(d)
  {
    Entry(d.name, d.stat.value.size, d.stat.value.atime, d.stat.value.key.value)
  }

  function Candidates(dirents: seq<Dirent>): seq<Entry> {
    if dirents == [] then []
    else
      var last := dirents[|dirents| - 1];
      Candidates(dirents[..|dirents| - 1]) + if IsCandidate(last) then [ToEntry(last)] else []
  }

  // ---------------------------------------------------------------- what a listing says of its directory

  /** The entry has of a directory entry the name, and of its stat the size, the access time and the recency key. */
  predicate Describes(e: Entry, d: Dirent) {
    && d.stat.Some? && e.name == d.name && e.size == d.stat.value.size && e.atime == d.stat.value.atime
    && d.stat.value.key == Some(e.key)
  }

  /** A file that may be evicted: a regular one with a recency key, and not the lock file. */
  predicate Evictable(d: Dirent) {
    && d.name != "." && d.name != ".." && d.name != ".dyad_cache.lock"
    && d.stat.Some? && d.stat.value.regular && d.stat.value.key.Some?
  }

  /** `entries` describes the evictable files of a directory, each once and in order; `at` says where they are. */
  ghost predicate IsListing(dirents: seq<Dirent>, entries: seq<Entry>, at: seq<nat>) {
    && |at| == |entries|
    && (forall k | 0 <= k < |at| :: at[k] < |dirents| && Describes(entries[k], dirents[at[k]]))
    && (forall j, k | 0 <= j < k < |at| :: at[j] < at[k])
    && (forall i | 0 <= i < |dirents| :: i in at <==> Evictable(dirents[i]))
  }

  lemma CandidateIff(d: Dirent)
    ensures IsCandidate(d) <==> Evictable(d)
    ensures IsCandidate(d) ==> Describes(ToEntry(d), d)
  {
  }

  /** One more directory entry that is not evictable, or is and has its entry. */
  lemma ListingPasses(dirents: seq<Dirent>, entries: seq<Entry>, at: seq<nat>, d: Dirent)
    requires IsListing(dirents, entries, at) && !Evictable(d)
    ensures IsListing(dirents + [d], entries, at)
  {
    assert forall i | 0 <= i < |dirents| :: (dirents + [d])[i] == dirents[i];
  }

  lemma ListingTakes(dirents: seq<Dirent>, entries: seq<Entry>, at: seq<nat>, d: Dirent, e: Entry)
    requires IsListing(dirents, entries, at) && Evictable(d) && Describes(e, d)
    ensures IsListing(dirents + [d], entries + [e], at + [|dirents|])
  {
    var more := dirents + [d];
    assert forall i | 0 <= i < |dirents| :: more[i] == dirents[i];
    assert more[|dirents|] == d && (at + [|dirents|])[|at|] == |dirents|;
    forall i | 0 <= i < |more|
      ensures i in at + [|dirents|] <==> Evictable(more[i])
    {
      assert i < |dirents| ==> (i in at <==> Evictable(dirents[i]));
    }
  }

  /** A directory entry gives exactly one candidate, with what its stat says, exactly if it is evictable. */
  lemma {:induction false} CandidatesAreListed(dirents: seq<Dirent>) returns (at: seq<nat>)
    ensures IsListing(dirents, Candidates(dirents), at)
  {
    if dirents == [] {
      at := [];
    } else {
      var front, last := dirents[..|dirents| - 1], dirents[|dirents| - 1];
      at := CandidatesAreListed(front);
      assert dirents == front + [last];
      CandidateIff(last);
      if IsCandidate(last) {
        ListingTakes(front, Candidates(front), at, last, ToEntry(last));
        at := at + [|front|];
      } else {
        ListingPasses(front, Candidates(front), at, last);
        assert Candidates(dirents) == Candidates(front);
      }
    }
  }

  function Total(entries: seq<Entry>): nat {
    if entries == [] then 0 else Total(entries[..|entries| - 1]) + entries[|entries| - 1].size
  }

  /** Slots that the array has once n candidates are in it: none at first, then 16, then doubling. */
  function Capacity(n: nat): (c: nat)
    ensures n <= c
  {
    if n == 0 then 0 else Grow(16, n)
  }

  function Grow(c: nat, n: nat): (r: nat)
    requires 0 < c
    ensures n <= r
    decreases if n <= c then 0 else n - c
  {
    if n <= c then c else Grow(2 * c, n)
  }

  lemma {:induction false} GrowMonotone(c: nat, m: nat, n: nat)
    requires 0 < c && m <= n
    ensures Grow(c, m) <= Grow(c, n)
    decreases if n <= c then 0 else n - c
  {
    if n > c {
      if m > c {
        GrowMonotone(2 * c, m, n);
      } else {
        GrowAtLeast(2 * c, n);
      }
    }
  }

  lemma {:induction false} GrowAtLeast(c: nat, n: nat)
    requires 0 < c
    ensures c <= Grow(c, n)
    decreases if n <= c then 0 else n - c
  {
    if n > c {
      GrowAtLeast(2 * c, n);
    }
  }

  /** A full array doubles for the next candidate; one with room keeps its slots. */
  lemma {:induction false} GrowNext(c: nat, n: nat)
    requires 0 < c
    ensures Grow(c, n + 1) == if n == Grow(c, n) then 2 * n else Grow(c, n)
    decreases if n <= c then 0 else n - c
  {
    if n > c {
      GrowNext(2 * c, n);
    }
  }

  /** The slots needed for one more candidate. */
  lemma NextCapacity(n: nat, final: nat)
    ensures Capacity(n + 1) == if n == Capacity(n) then (if n == 0 then 16 else 2 * n) else Capacity(n)
    ensures n + 1 <= final ==> Capacity(n + 1) <= Capacity(final)
  {
    GrowNext(16, n);
    if n + 1 <= final {
      GrowMonotone(16, n + 1, final);
    }
  }

  lemma {:induction false} CandidatesPrefix(dirents: seq<Dirent>, i: nat)
    requires i <= |dirents|
    ensures |Candidates(dirents[..i])| <= |Candidates(dirents)|
  {
    if i < |dirents| {
      assert dirents[..|dirents| - 1][..i] == dirents[..i];
      CandidatesPrefix(dirents[..|dirents| - 1], i);
    } else {
      assert dirents[..i] == dirents;
    }
  }

  /** realloc: more slots, same contents. */
  method Resize(slots: array<Entry>, capacity: nat) returns (grown: array<Entry>)
    requires slots.Length <= capacity
    ensures fresh(grown) && grown.Length == capacity && grown[..slots.Length] == slots[..]
  {
    grown := new Entry[capacity](_ => Entry("", 0, 0, 0));
    forall k | 0 <= k < slots.Length {
      grown[k] := slots[k];
    }
  }

  /** Stores one more entry, in a grown array if the old one is full. */
  method Append(slots: array<Entry>, n: nat, entry: Entry, memory: nat) returns (ok: bool, next: array<Entry>)
    requires n <= slots.Length == Capacity(n) <= memory
    modifies slots
    ensures ok <==> Capacity(n + 1) <= memory
    ensures next == slots || fresh(next)
    ensures ok ==> next.Length == Capacity(n + 1) && next[..n + 1] == old(slots[..n]) + [entry]
  {
    NextCapacity(n, n);
    next := slots;
    if n == slots.Length {
      var newCapacity := if slots.Length == 0 then 16 else slots.Length * 2;
      if newCapacity > memory {
        return false, slots;
      }
      next := Resize(slots, newCapacity);
    }
    next[n] := entry;
    ok := true;
  }

  lemma TotalAppend(entries: seq<Entry>, entry: Entry)
    ensures Total(entries + [entry]) == Total(entries) + entry.size
    ensures Add64(Total(entries) % WORD, entry.size) == Total(entries + [entry]) % WORD
  {
    assert (entries + [entry])[..|entries|] == entries;
  }

  /** What the scan has after i directory entries. */
  ghost predicate Collected(dirents: seq<Dirent>, i: nat, found: seq<Entry>, total: nat) {
    i <= |dirents| && found == Candidates(dirents[..i]) && total == Total(found) % WORD
  }

  /** One more directory entry: nothing changes, or a candidate is added that is one of all candidates. */
  lemma CollectOne(dirents: seq<Dirent>, i: nat, found: seq<Entry>, total: nat)
    requires i < |dirents| && Collected(dirents, i, found, total)
    ensures !IsCandidate(dirents[i]) ==> Collected(dirents, i + 1, found, total)
    ensures IsCandidate(dirents[i]) ==>
              && Collected(dirents, i + 1, found + [ToEntry(dirents[i])], Add64(total, dirents[i].stat.value.size))
              && Capacity(|found| + 1) <= Capacity(|Candidates(dirents)|)
  {
    assert dirents[..i + 1][..i] == dirents[..i];
    CandidatesPrefix(dirents, i + 1);
    if IsCandidate(dirents[i]) {
      TotalAppend(found, ToEntry(dirents[i]));
      NextCapacity(|found|, |Candidates(dirents)|);
    }
  }

  /** The loop over the directory's entries. An array of more than `memory` slots cannot be allocated. */
  method CollectAll(dirents: seq<Dirent>, memory: nat) returns (ok: bool, slots: array<Entry>, n: nat, total: nat)
    ensures ok <==> Capacity(|Candidates(dirents)|) <= memory
    ensures ok ==> n <= slots.Length && Collected(dirents, |dirents|, slots[..n], total)
  {
    slots := new Entry[0];
    n, total := 0, 0;
    for i := 0 to |dirents|
      invariant fresh(slots) && n <= slots.Length == Capacity(n) <= memory
      invariant Collected(dirents, i, slots[..n], total)
    {
      CollectOne(dirents, i, slots[..n], total);
      if IsCandidate(dirents[i]) {
        var stored;
        stored, slots := Append(slots, n, ToEntry(dirents[i]), memory);
        if !stored {
          return false, slots, n, total;
        }
        total := Add64(total, dirents[i].stat.value.size);
        n := n + 1;
      }
    }
    ok := true;
    assert dirents[..|dirents|] == dirents;
  }

  /** dyad_cache_scan_dir: collects the candidates and adds up their sizes. It fails when the directory cannot be opened
      and when the array cannot grow. */
  method ScanDir(dir: Option<seq<Dirent>>, memory: nat) returns (ok: bool, entries: seq<Entry>, total: nat)
    ensures ok <==> dir.Some? && Capacity(|Candidates(dir.value)|) <= memory
    ensures ok ==> entries == Candidates(dir.value) && total == Total(entries) % WORD
    ensures ok ==> exists at :: IsListing(dir.value, entries, at)
    ensures !ok ==> entries == [] && total == 0
  {
    if dir.None? {
      return false, [], 0;
    }
    var slots, n;
    ok, slots, n, total := CollectAll(dir.value, memory);
    if !ok {
      return false, [], 0;
    }
    assert dir.value[..|dir.value|] == dir.value;
    entries := slots[..n];
    ghost var at := CandidatesAreListed(dir.value);
  }
}
