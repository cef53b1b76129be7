/** The greedy eviction loop and the decision around it, for every set of files and every pattern of files that turn
    out to be gone, locked or not removable. */
module EvictionLoop {
  import opened Eviction

  /** What the file system answers when an entry's turn comes. */
  datatype Answer = Gone | LockedElsewhere | UnlinkFails | Removed

  datatype Decision = Deleted | Recent | Skipped

  /** The managed directory: sizes of the files in it. */
  class Directory {
    var files: map<string, nat>
  }

  function Decide(e: Entry, now: int, grace: nat, answer: Answer): Decision {
    if now - e.atime < grace then Recent else if answer == Removed then Deleted else Skipped
  }

  /** Bytes freed by the decisions on the first |log| entries. */
  function Freed(entries: seq<Entry>, log: seq<Decision>): nat
    requires |log| <= |entries|
  {
    if log == [] then 0
    else
      var i := |log| - 1;
      Freed(entries, log[..i]) + if log[i].Deleted? then entries[i].size else 0
  }

  /** Names of the deleted entries. */
  function DeletedNames(entries: seq<Entry>, log: seq<Decision>): set<string>
    requires |log| <= |entries|
  {
    if log == [] then {}
    else
      var i := |log| - 1;
      DeletedNames(entries, log[..i]) + if log[i].Deleted? then {entries[i].name} else {}
  }

  /** The entries that are still there. */
  function Survivors(entries: seq<Entry>, log: seq<Decision>): seq<Entry>
    requires |log| <= |entries|
    decreases |entries|
  {
    if entries == [] then []
    else
      var i := |entries| - 1;
      if |log| <= i then Survivors(entries[..i], log) + [entries[i]]
      else Survivors(entries[..i], log[..i]) + if log[i].Deleted? then [] else [entries[i]]
  }

  /** The tracked total after the first i entries. */
  function Tracked(scanned: nat, entries: seq<Entry>, log: seq<Decision>): nat
    requires |log| <= |entries|
  {
    Sub64(scanned, Freed(entries, log))
  }

  /** `log` is what the loop does on these entries: it examines them in order, as long as the tracked total is above
      the low-water mark and entries are left, and decides each by its age and the file system's answer. (Answers that
      it did not come to may be missing.) */
  ghost predicate IsRun(entries: seq<Entry>, scanned: nat, low: nat, now: int, grace: nat, answers: seq<Answer>,
                        log: seq<Decision>)
    requires |answers| <= |entries|
  {
    && IsRunSoFar(entries, scanned, low, now, grace, answers, log)
    && (|log| < |entries| ==> Tracked(scanned, entries, log) <= low)
  }

  ghost predicate IsRunSoFar(entries: seq<Entry>, scanned: nat, low: nat, now: int, grace: nat, answers: seq<Answer>,
                             log: seq<Decision>)
    requires |answers| <= |entries|
  {
    && |log| <= |answers|
    && (forall i | 0 <= i < |log| :: log[i] == Decide(entries[i], now, grace, answers[i]))
    && (forall i | 0 <= i < |log| :: Tracked(scanned, entries, log[..i]) > low)
  }

  /** One more decision. */
  lemma ExtendRun(entries: seq<Entry>, scanned: nat, low: nat, now: int, grace: nat, answers: seq<Answer>,
                  log: seq<Decision>, d: Decision)
    requires |log| < |answers| <= |entries|
    requires IsRunSoFar(entries, scanned, low, now, grace, answers[..|log|], log)
    requires Tracked(scanned, entries, log) > low && d == Decide(entries[|log|], now, grace, answers[|log|])
    ensures IsRunSoFar(entries, scanned, low, now, grace, answers, log + [d])
    ensures Freed(entries, log + [d]) == Freed(entries, log) + if d.Deleted? then entries[|log|].size else 0
    ensures DeletedNames(entries, log + [d])
         == DeletedNames(entries, log) + if d.Deleted? then {entries[|log|].name} else {}
  {
    assert (log + [d])[..|log|] == log;
    assert forall i | 0 <= i < |log| :: (log + [d])[..i] == log[..i];
  }

  /** The loop of dyad_cache_maybe_evict. */
  method Evict(dir: Directory, entries: seq<Entry>, scanned: nat, low: nat, now: int, grace: nat, answers: seq<Answer>)
    returns (total: nat, freed: nat, log: seq<Decision>)
    requires |answers| == |entries| && scanned < WORD
    modifies dir
    ensures IsRun(entries, scanned, low, now, grace, answers, log)
    ensures total == Tracked(scanned, entries, log) && freed == Freed(entries, log) % WORD
    ensures dir.files == old(dir.files) - DeletedNames(entries, log)
  {
    total, freed, log := scanned, 0, [];
    var i := 0;
    while i < |entries| && total > low
      invariant i == |log| <= |entries|
      invariant IsRunSoFar(entries, scanned, low, now, grace, answers, log)
      invariant total == Tracked(scanned, entries, log) && freed == Freed(entries, log) % WORD
      invariant dir.files == old(dir.files) - DeletedNames(entries, log)
    {
      StepArithmetic(scanned, Freed(entries, log), entries[i].size);
      ExtendRun(entries, scanned, low, now, grace, answers, log, Decide(entries[i], now, grace, answers[i]));
      if now - entries[i].atime < grace {
        log := log + [Recent];
      } else if answers[i] != Removed {
        log := log + [Skipped];
      } else {
        log := log + [Deleted];
        dir.files := dir.files - {entries[i].name};
        total := Sub64(total, entries[i].size);
        freed := Add64(freed, entries[i].size);
      }
      i := i + 1;
    }
  }

  lemma AddMultiple(y: int, q: int)
    ensures (y + q * WORD) % WORD == y % WORD
  {
    var m, k := y % WORD, y / WORD;
    assert y + q * WORD == (k + q) * WORD + m;
  }

  lemma StepArithmetic(scanned: nat, freed: nat, size: nat)
    ensures Sub64(Sub64(scanned, freed), size) == Sub64(scanned, freed + size)
    ensures Add64(freed % WORD, size) == (freed + size) % WORD
  {
    var x: int := scanned - freed;
    AddMultiple(x % WORD - size, x / WORD);
    assert x - size == (x % WORD - size) + x / WORD * WORD;
    AddMultiple(freed % WORD + size, freed / WORD);
    assert freed + size == freed % WORD + size + freed / WORD * WORD;
  }

  // ---------------------------------------------------------------- what the loop achieves

  /** The names taken out of the directory are those of the entries that were decided to be deleted. */
  lemma {:induction false} DeletedNamesIff(entries: seq<Entry>, log: seq<Decision>, name: string)
    requires |log| <= |entries|
    ensures name in DeletedNames(entries, log)
       <==> exists i | 0 <= i < |log| :: log[i].Deleted? && entries[i].name == name
    decreases |log|
  {
    if log != [] {
      var front := log[..|log| - 1];
      DeletedNamesIff(entries, front, name);
      assert forall i | 0 <= i < |front| :: front[i] == log[i];
    }
  }

  /** The survivors are the entries that were not deleted, examined or not. */
  lemma {:induction false} SurvivorsIff(entries: seq<Entry>, log: seq<Decision>, e: Entry)
    requires |log| <= |entries|
    ensures e in Survivors(entries, log)
       <==> exists i | 0 <= i < |entries| :: entries[i] == e && (i >= |log| || !log[i].Deleted?)
    decreases |entries|
  {
    if entries != [] {
      var n := |entries| - 1;
      var before := if |log| <= n then log else log[..n];
      SurvivorsIff(entries[..n], before, e);
      assert forall i | 0 <= i < n :: entries[..n][i] == entries[i];
      assert forall i | 0 <= i < |before| :: before[i] == log[i];
    }
  }

  /** The log without its decision on the last entry, if there is one. */
  function Before(entries: seq<Entry>, log: seq<Decision>): seq<Decision>
    requires |log| <= |entries| && entries != []
  {
    if |log| < |entries| then log else log[..|entries| - 1]
  }

  /** Bytes of the last entry that were freed. */
  function LastFreed(entries: seq<Entry>, log: seq<Decision>): nat
    requires |log| <= |entries| && entries != []
  {
    if |log| == |entries| && log[|log| - 1].Deleted? then entries[|entries| - 1].size else 0
  }

  lemma FreedLast(entries: seq<Entry>, log: seq<Decision>)
    requires |log| <= |entries| && entries != []
    ensures Freed(entries, log) == Freed(entries[..|entries| - 1], Before(entries, log)) + LastFreed(entries, log)
  {
    FreedPrefix(entries, |entries| - 1, Before(entries, log));
  }

  lemma SurvivorsLast(entries: seq<Entry>, log: seq<Decision>)
    requires |log| <= |entries| && entries != []
    ensures Total(Survivors(entries, log)) + LastFreed(entries, log)
         == Total(Survivors(entries[..|entries| - 1], Before(entries, log))) + entries[|entries| - 1].size
  {
    var i := |entries| - 1;
    var kept := Survivors(entries[..i], Before(entries, log));
    TotalAppend(kept, entries[i]);
    assert kept + [] == kept;
  }

  /** Conservation: freed bytes plus surviving bytes are the scanned bytes. */
  lemma {:induction false} FreedPlusSurvivors(entries: seq<Entry>, log: seq<Decision>)
    requires |log| <= |entries|
    ensures Freed(entries, log) + Total(Survivors(entries, log)) == Total(entries)
    decreases |entries|
  {
    if entries != [] {
      FreedPlusSurvivors(entries[..|entries| - 1], Before(entries, log));
      FreedLast(entries, log);
      SurvivorsLast(entries, log);
    }
  }

  lemma {:induction false} FreedPrefix(entries: seq<Entry>, n: nat, log: seq<Decision>)
    requires |log| <= n <= |entries|
    ensures Freed(entries[..n], log) == Freed(entries, log)
  {
    if log != [] {
      FreedPrefix(entries, n, log[..|log| - 1]);
    }
  }

  /** The 64-bit total never underflows: at every point of the loop it is exactly the size of what is left. */
  lemma TrackedIsExact(entries: seq<Entry>, log: seq<Decision>)
    requires |log| <= |entries| && Total(entries) < WORD
    ensures Tracked(Total(entries), entries, log) == Total(Survivors(entries, log))
    ensures Freed(entries, log) <= Total(entries)
  {
    FreedPlusSurvivors(entries, log);
    ExactSub(Total(entries), Freed(entries, log));
  }

  lemma ExactSub(a: nat, b: nat)
    requires b <= a < WORD
    ensures Sub64(a, b) == a - b
  {
  }

  /** dyad_cache_entry_cmp */
  function Compare(a: Entry, b: Entry): int {
    if a.key < b.key then -1 else if a.key > b.key then 1 else 0
  }

  /** What qsort leaves: no entry compares greater than its successor. */
  ghost predicate Sorted(entries: seq<Entry>) {
    forall i {:trigger entries[i]} | 0 <= i < |entries| - 1 :: Compare(entries[i], entries[i + 1]) <= 0
  }

  ghost predicate SortedByKey(entries: seq<Entry>) {
    forall i, j | 0 <= i < j < |entries| :: entries[i].key <= entries[j].key
  }

  lemma {:induction false} KeysRise(entries: seq<Entry>, i: nat, j: nat)
    requires Sorted(entries) && i <= j < |entries|
    ensures entries[i].key <= entries[j].key
    decreases j - i
  {
    if i < j {
      KeysRise(entries, i, j - 1);
      assert Compare(entries[j - 1], entries[j - 1 + 1]) <= 0;
    }
  }

  /** The comparison is an order on the keys, so an array sorted by it runs from the smallest key to the largest. */
  lemma SortedIff(entries: seq<Entry>)
    ensures Sorted(entries) <==> SortedByKey(entries)
  {
    if Sorted(entries) {
      forall i, j | 0 <= i < j < |entries|
        ensures entries[i].key <= entries[j].key
      {
        KeysRise(entries, i, j);
      }
    }
  }

  /** In sorted order, entries with a smaller key have their turn before. */
  lemma SmallerKeysFirst(entries: seq<Entry>, now: int, grace: nat, answers: seq<Answer>, log: seq<Decision>, i: nat)
    requires |log| <= |answers| <= |entries| && Sorted(entries) && i < |log|
    requires forall j | 0 <= j < |log| :: log[j] == Decide(entries[j], now, grace, answers[j])
    ensures forall j | 0 <= j < |entries| && entries[j].key < entries[i].key ::
              j < i && (log[j].Deleted? || now - entries[j].atime < grace || answers[j] != Removed)
  {
    SortedIff(entries);
  }

  /** Every entry had its turn while what was left exceeded the mark. */
  lemma AboveMark(entries: seq<Entry>, low: nat, now: int, grace: nat, answers: seq<Answer>, log: seq<Decision>, i: nat)
    requires |answers| <= |entries| && Total(entries) < WORD
    requires IsRunSoFar(entries, Total(entries), low, now, grace, answers, log) && i < |log|
    ensures Total(Survivors(entries, log[..i])) > low
  {
    TrackedIsExact(entries, log[..i]);
    assert Tracked(Total(entries), entries, log[..i]) > low;
  }

  /** Least recent first: when an entry is deleted, every entry with a strictly smaller key had its turn before and was
      deleted or skipped; no entry inside the grace period is ever deleted; and a deletion happens only while what is
      left exceeds the low-water mark. */
  lemma DeletionsAreJustified(entries: seq<Entry>, low: nat, now: int, grace: nat, answers: seq<Answer>,
                              log: seq<Decision>, i: nat)
    requires |answers| <= |entries| && Total(entries) < WORD && Sorted(entries)
    requires IsRun(entries, Total(entries), low, now, grace, answers, log)
    requires i < |log| && log[i].Deleted?
    ensures now - entries[i].atime >= grace && answers[i] == Removed
    ensures Total(Survivors(entries, log[..i])) > low
    ensures forall j | 0 <= j < |entries| && entries[j].key < entries[i].key ::
              j < i && (log[j].Deleted? || now - entries[j].atime < grace || answers[j] != Removed)
  {
    SmallerKeysFirst(entries, now, grace, answers, log, i);
    AboveMark(entries, low, now, grace, answers, log, i);
  }

  /** On exit either what is left is at or below the low-water mark, or every entry was examined and every survivor is
      one that was too recent or could not be removed. */
  lemma ExitIsJustified(entries: seq<Entry>, low: nat, now: int, grace: nat, answers: seq<Answer>, log: seq<Decision>)
    requires |answers| <= |entries| && Total(entries) < WORD
    requires IsRun(entries, Total(entries), low, now, grace, answers, log)
    ensures || Total(Survivors(entries, log)) <= low
            || (|log| == |entries| &&
                forall i | 0 <= i < |entries| ::
                  log[i].Deleted? <==> now - entries[i].atime >= grace && answers[i] == Removed)
  {
    TrackedIsExact(entries, log);
  }

  /** The description leaves no choice: two runs on the same input decide alike. */
  lemma {:induction false} RunIsUnique(entries: seq<Entry>, scanned: nat, low: nat, now: int, grace: nat,
                                      answers: seq<Answer>, a: seq<Decision>, b: seq<Decision>)
    requires |answers| <= |entries|
    requires IsRun(entries, scanned, low, now, grace, answers, a)
    requires IsRun(entries, scanned, low, now, grace, answers, b)
    ensures a == b
  {
    var n := if |a| < |b| then |a| else |b|;
    assert a[..n] == b[..n];
    assert a[..|a|] == a && b[..|b|] == b;
  }

  // ---------------------------------------------------------------- the same entries in another order

  lemma MultisetRemove(b: seq<Entry>, k: nat)
    requires k < |b|
    ensures multiset(b[..k] + b[k + 1..]) == multiset(b) - multiset{b[k]}
  {
    assert b == b[..k] + [b[k]] + b[k + 1..];
  }

  /** The last of a sequence, found in another arrangement of it and taken out of both. */
  lemma TakeOut(a: seq<Entry>, b: seq<Entry>) returns (k: nat)
    requires a != [] && multiset(a) == multiset(b)
    ensures k < |b| && b[k] == a[|a| - 1]
    ensures multiset(a[..|a| - 1]) == multiset(b[..k] + b[k + 1..])
  {
    var last := a[|a| - 1];
    assert last in multiset(b);
    k :| 0 <= k < |b| && b[k] == last;
    MultisetRemove(b, k);
    assert a == a[..|a| - 1] + [last];
  }

  /** Sorting does not change the total. */
  lemma {:induction false} SameTotal(a: seq<Entry>, b: seq<Entry>)
    requires multiset(a) == multiset(b)
    ensures Total(a) == Total(b)
    decreases |a|
  {
    if a == [] {
      assert |multiset(b)| == 0;
    } else {
      var k := TakeOut(a, b);
      SameTotal(a[..|a| - 1], b[..k] + b[k + 1..]);
      TotalRemove(b, k);
    }
  }

  lemma RemoveInFront(b: seq<Entry>, k: nat)
    requires k < |b| - 1
    ensures var front := b[..|b| - 1];
      b[..k] + b[k + 1..] == (front[..k] + front[k + 1..]) + [b[|b| - 1]]
  {
  }

  lemma {:induction false} TotalRemove(b: seq<Entry>, k: nat)
    requires k < |b|
    ensures Total(b) == Total(b[..k] + b[k + 1..]) + b[k].size
    decreases |b|
  {
    if k == |b| - 1 {
      assert b[..k] + b[k + 1..] == b[..k];
    } else {
      var front := b[..|b| - 1];
      TotalRemove(front, k);
      RemoveInFront(b, k);
      TotalAppend(front[..k] + front[k + 1..], b[|b| - 1]);
    }
  }
}
