/** Progress of many evictors: those that have arrived and do not give up all finish, whatever order they take their steps
    in, and nobody keeps the directory lock. */
module EvictorsProgress {
  import opened Files
  import opened Eviction
  import opened EvictionLoop
  import opened Evictors
  import opened Sums

  /** Steps of evictors that have arrived and do not give up. */
  predicate Internal(step: Step) {
    !step.Arrive? && !step.GiveUp?
  }

  predicate AllInternal(steps: seq<Step>) {
    forall i | 0 <= i < |steps| :: Internal(steps[i])
  }

  /** Steps that an evictor has left, at most, in a directory of n files. */
  function Left(p: Phase, n: nat): nat {
    match p
    case Begin => 3 * n + 7
    case Scanning(listed, _) => 2 * n + 6 + (if |listed| <= n then n - |listed| else 0)
    case Waiting => 2 * n + 5
    case Rescanning(listed, _) => n + 4 + (if |listed| <= n then n - |listed| else 0)
    case Evicting(order, _, _, log, _) => 1 + (if |log| <= |order| <= n then |order| - |log| else 0)
    case Finished => 0
  }

  function LeftOf(s: State): map<nat, nat> {
    map c | c in s.evictors :: Left(s.evictors[c].phase, |s.born|)
  }

  ghost function Rank(s: State): nat {
    Sum(LeftOf(s))
  }

  /** A directory has room for no more different entries than it has files. */
  lemma {:induction false} DistinctAtMost(files: map<string, Info>, listed: seq<Entry>)
    requires Distinct(listed) && AllEntriesOf(files, listed)
    ensures |listed| <= |files|
    decreases |listed|
  {
    if listed != [] {
      var front, e := listed[..|listed| - 1], listed[|listed| - 1];
      assert IsEntryOf(files, e);
      forall i | 0 <= i < |front|
        ensures IsEntryOf(files - {e.name}, front[i])
      {
        assert IsEntryOf(files, listed[i]);
      }
      DistinctAtMost(files - {e.name}, front);
      assert files.Keys == (files - {e.name}).Keys + {e.name};
      assert |files.Keys| == |(files - {e.name}).Keys| + 1;
    }
  }

  lemma ListedIsBorn(s: State, listed: seq<Entry>)
    requires FilesOk(s) && Distinct(listed) && AllEntriesOf(s.files, listed)
    ensures AllEntriesOf(s.born, listed)
  {
    forall i | 0 <= i < |listed|
      ensures IsEntryOf(s.born, listed[i])
    {
      assert IsEntryOf(s.files, listed[i]);
    }
  }

  lemma ListMoves(s: State, step: Step)
    requires Inv(s) && Enabled(s, step) && step.List?
    ensures Left(Apply(s, step).evictors[step.c].phase, |s.born|) < Left(s.evictors[step.c].phase, |s.born|)
  {
    OwnKeeps(s, step);
    FilesStay(s, step);
    var t := Apply(s, step);
    var p := t.evictors[step.c].phase;
    if p.Rescanning? {
      ListedIsBorn(t, p.listed);
    }
    DistinctAtMost(s.born, p.listed);
  }

  lemma RescanDoneMoves(s: State, step: Step)
    requires Inv(s) && Enabled(s, step) && step.RescanDone?
    ensures Left(Apply(s, step).evictors[step.c].phase, |s.born|) < Left(s.evictors[step.c].phase, |s.born|)
  {
    var listed := s.evictors[step.c].phase.listed;
    assert EvictorOk(s, step.c);
    ListedIsBorn(s, listed);
    DistinctAtMost(s.born, listed);
    assert |step.order| == |multiset(step.order)| == |multiset(listed)| == |listed|;
  }

  lemma ExamineLog(s: State, step: Step)
    requires Enabled(s, step) && step.Examine?
    ensures var p, q := s.evictors[step.c].phase, Apply(s, step).evictors[step.c].phase;
      q.Evicting? && q.order == p.order && |q.log| == |p.log| + 1 <= |p.order|
  {
  }

  lemma LoopMoves(s: State, step: Step)
    requires Inv(s) && Enabled(s, step) && step.Examine?
    ensures Left(Apply(s, step).evictors[step.c].phase, |s.born|) < Left(s.evictors[step.c].phase, |s.born|)
  {
    assert EvictorOk(s, step.c);
    DistinctAtMost(s.born, s.evictors[step.c].phase.order);
    ExamineLog(s, step);
  }

  lemma PlainMoves(s: State, step: Step)
    requires Enabled(s, step) && Internal(step) && !step.List? && !step.RescanDone? && !step.Examine?
    ensures Left(Apply(s, step).evictors[step.c].phase, |s.born|) < Left(s.evictors[step.c].phase, |s.born|)
  {
  }

  lemma OneMoves(s: State, step: Step)
    requires Enabled(s, step) && Internal(step)
    ensures step.c in s.evictors && step.c in Apply(s, step).evictors && Apply(s, step).born == s.born
    ensures Apply(s, step).evictors == s.evictors[step.c := Apply(s, step).evictors[step.c]]
  {
  }

  lemma StepLowersRank(s: State, step: Step)
    requires Inv(s) && Enabled(s, step) && Internal(step)
    ensures Rank(Apply(s, step)) < Rank(s)
  {
    OneMoves(s, step);
    if step.List? {
      ListMoves(s, step);
    } else if step.RescanDone? {
      RescanDoneMoves(s, step);
    } else if step.Examine? {
      LoopMoves(s, step);
    } else {
      PlainMoves(s, step);
    }
    var t := Apply(s, step);
    var left := Left(t.evictors[step.c].phase, |s.born|);
    assert LeftOf(t) == LeftOf(s)[step.c := left];
    SumUpdate(LeftOf(s), step.c, left);
  }

  // ---------------------------------------------------------------- somebody can go on

  lemma Insert(sorted: seq<Entry>, e: Entry) returns (order: seq<Entry>)
    requires SortedByKey(sorted)
    ensures SortedByKey(order) && multiset(order) == multiset(sorted + [e])
  {
    var k := Place(sorted, e.key);
    order := sorted[..k] + [e] + sorted[k..];
    assert sorted == sorted[..k] + sorted[k..];
  }

  /** Entries can be sorted. */
  lemma {:induction false} SortExists(s: seq<Entry>) returns (order: seq<Entry>)
    ensures multiset(order) == multiset(s) && SortedByKey(order)
    decreases |s|
  {
    if s == [] {
      order := [];
    } else {
      var front, e := s[..|s| - 1], s[|s| - 1];
      var sorted := SortExists(front);
      order := Insert(sorted, e);
      assert s == front + [e];
    }
  }

  /** Where an entry goes in a sorted sequence. */
  lemma {:induction false} Place(sorted: seq<Entry>, key: int) returns (k: nat)
    requires SortedByKey(sorted)
    ensures k <= |sorted|
    ensures (forall i | 0 <= i < k :: sorted[i].key <= key) && (forall i | k <= i < |sorted| :: key < sorted[i].key)
    decreases |sorted|
  {
    if sorted == [] || sorted[|sorted| - 1].key <= key {
      k := |sorted|;
    } else {
      k := Place(sorted[..|sorted| - 1], key);
    }
  }

  /** A scan that has not met every file can meet one more. */
  lemma ScanCanGoOn(s: State, c: nat) returns (step: Step)
    requires c in s.evictors && (s.evictors[c].phase.Scanning? || s.evictors[c].phase.Rescanning?)
    ensures Internal(step) && Enabled(s, step)
  {
    var p := s.evictors[c].phase;
    if AllListed(s.files, p.listed) {
      if p.Scanning? {
        step := FirstDone(c);
      } else {
        var order := SortExists(p.listed);
        SortedIff(order);
        step := RescanDone(c, order, 0);
      }
    } else {
      var name :| name in s.files && !Listed(p.listed, name);
      step := List(c, name);
    }
  }

  lemma OwnerCanGoOn(s: State) returns (step: Step)
    requires Inv(s) && s.owner.Some?
    ensures Internal(step) && Enabled(s, step)
  {
    var c := s.owner.value;
    assert EvictorOk(s, c);
    var p := s.evictors[c].phase;
    if p.Rescanning? {
      step := ScanCanGoOn(s, c);
    } else if |p.log| == |p.order| || p.total <= s.low {
      step := Finish(c);
    } else {
      step := Examine(c, Gone);
    }
  }

  predicate AllFinished(s: State) {
    forall c | c in s.evictors :: s.evictors[c].phase.Finished?
  }

  /** No deadlock: while an evictor has not finished, some evictor can go on. */
  lemma NeverStuck(s: State) returns (step: Step)
    requires Inv(s) && !AllFinished(s)
    ensures Internal(step) && Enabled(s, step)
  {
    if s.owner.Some? {
      step := OwnerCanGoOn(s);
    } else {
      var c :| c in s.evictors && !s.evictors[c].phase.Finished?;
      assert EvictorOk(s, c);
      if s.evictors[c].phase.Begin? {
        step := OpenDir(c);
      } else if s.evictors[c].phase.Waiting? {
        step := Lock(c);
      } else {
        step := ScanCanGoOn(s, c);
      }
    }
  }

  lemma {:induction false} RunIsBounded(s: State, steps: seq<Step>)
    requires Inv(s) && Legal(s, steps) && AllInternal(steps)
    ensures |steps| + Rank(After(s, steps)) <= Rank(s)
    decreases |steps|
  {
    if steps != [] {
      StepLowersRank(s, steps[0]);
      StepKeepsInv(s, steps[0]);
      RunIsBounded(Apply(s, steps[0]), steps[1..]);
    }
  }

  /** Every evictor that has arrived finishes: from every reachable state, a run of evictors that do not give up is
      bounded, and when it cannot go on, all have finished and the directory lock is free. */
  lemma EveryEvictorFinishes(start: State, before: seq<Step>, later: seq<Step>)
    requires Init(start) && Legal(start, before) && Legal(After(start, before), later) && AllInternal(later)
    ensures |later| <= Rank(After(start, before))
    ensures var t := After(After(start, before), later);
      (forall step | Internal(step) :: !Enabled(t, step)) ==> AllFinished(t) && t.owner == None
  {
    InitHolds(start);
    RunKeepsInv(start, before);
    var s := After(start, before);
    RunIsBounded(s, later);
    RunKeepsInv(s, later);
    var t := After(s, later);
    if forall step | Internal(step) :: !Enabled(t, step) {
      if !AllFinished(t) {
        var step := NeverStuck(t);
      }
      if t.owner.Some? {
        var step := OwnerCanGoOn(t);
      }
    }
  }

  /** And there is such a run. */
  lemma {:induction false} RunToFinish(s: State) returns (later: seq<Step>)
    requires Inv(s)
    ensures Legal(s, later) && AllInternal(later) && AllFinished(After(s, later))
    decreases Rank(s)
  {
    if AllFinished(s) {
      later := [];
    } else {
      var step := NeverStuck(s);
      StepKeepsInv(s, step);
      StepLowersRank(s, step);
      var rest := RunToFinish(Apply(s, step));
      later := [step] + rest;
      assert later[1..] == rest;
    }
  }
}
