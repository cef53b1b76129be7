/** Progress under the two locks as POSIX has them: neither lock is kept by a caller that is through, callers never wait for
    each other in a circle, and those that lose nothing have all their blocks recorded in the end. */
module RecordLocksProgress {
  import opened Files
  import opened RecordLocks
  import opened Sums

  // ---------------------------------------------------------------- who holds the locks

  /** From taking the record lock to giving it up. */
  predicate InLock(p: Phase) {
    p.HasLock? || p.Merged? || p.Written?
  }

  /** A process's mutex is held by the one of its threads that is between taking it and giving it up. */
  ghost predicate MutexOk(callers: Callers, s: State) {
    && s.phases.Keys == callers.Keys
    && (forall c | c in callers && InMutex(s.phases[c]) ::
          callers[c].process in s.mutex && s.mutex[callers[c].process] == c)
    && (forall process | process in s.mutex ::
          var c := s.mutex[process]; c in callers && callers[c].process == process && InMutex(s.phases[c]))
  }

  /** The record lock is held by a process only while its mutex holder is between taking it and giving it up. */
  ghost predicate LockOk(s: State) {
    s.lock.Some? ==> s.lock.value in s.mutex && s.mutex[s.lock.value] in s.phases
                     && InLock(s.phases[s.mutex[s.lock.value]])
  }

  /** Where a caller's step leads. */
  lemma StepMoves(callers: Callers, s: State, step: Step)
    requires Enabled(callers, s, step)
    ensures var t := Apply(callers, s, step);
      && step.c in s.phases && step.c in t.phases && t.phases == s.phases[step.c := t.phases[step.c]]
      && match step
         case Return(c) => t.phases[c].Closing? && t.mutex == s.mutex && t.lock == s.lock
         case TakeMutex(c) => t.phases[c].HasMutex? && t.mutex == s.mutex[callers[c].process := c] && t.lock == s.lock
         case TakeLock(c) => t.phases[c].HasLock? && t.mutex == s.mutex && t.lock == Some(callers[c].process)
         case Read(c) => t.phases[c].Merged? && t.mutex == s.mutex && t.lock == s.lock
         case Write(c) => t.phases[c].Written? && t.mutex == s.mutex && t.lock == s.lock
         case Release(c) => t.phases[c].Closing? && t.mutex == s.mutex - {callers[c].process}
                            && t.lock == (if s.lock == Some(callers[c].process) then None else s.lock)
         case Close(c) => t.phases[c].Done? && t.mutex == s.mutex
                          && t.lock == (if s.lock == Some(callers[c].process) then None else s.lock)
  {
  }

  lemma StepKeepsMutex(callers: Callers, s: State, step: Step)
    requires MutexOk(callers, s) && Enabled(callers, s, step)
    ensures MutexOk(callers, Apply(callers, s, step))
  {
    StepMoves(callers, s, step);
  }

  lemma StepKeepsLock(callers: Callers, s: State, step: Step)
    requires MutexOk(callers, s) && LockOk(s) && Enabled(callers, s, step)
    ensures LockOk(Apply(callers, s, step))
  {
    StepMoves(callers, s, step);
  }

  lemma {:induction false} RunKeepsLocks(callers: Callers, s: State, steps: seq<Step>)
    requires MutexOk(callers, s) && LockOk(s) && Legal(callers, s, steps)
    ensures MutexOk(callers, After(callers, s, steps)) && LockOk(After(callers, s, steps))
    decreases |steps|
  {
    if steps != [] {
      StepKeepsMutex(callers, s, steps[0]);
      StepKeepsLock(callers, s, steps[0]);
      RunKeepsLocks(callers, Apply(callers, s, steps[0]), steps[1..]);
    }
  }

  // ---------------------------------------------------------------- progress

  /** Steps that a caller has left, at most. */
  function Left(p: Phase): nat {
    match p
    case Begin => 6
    case HasMutex => 5
    case HasLock => 4
    case Merged(_) => 3
    case Written => 2
    case Closing => 1
    case Done => 0
  }

  function LeftOf(s: State): map<nat, nat> {
    map c | c in s.phases :: Left(s.phases[c])
  }

  ghost function Rank(s: State): nat {
    Sum(LeftOf(s))
  }

  /** Every step, one that fails or returns early included, brings its caller nearer to its end. */
  lemma StepLowersRank(callers: Callers, s: State, step: Step)
    requires Enabled(callers, s, step)
    ensures Rank(Apply(callers, s, step)) < Rank(s)
  {
    StepMoves(callers, s, step);
    var t := Apply(callers, s, step);
    assert LeftOf(t) == LeftOf(s)[step.c := Left(t.phases[step.c])];
    SumUpdate(LeftOf(s), step.c, Left(t.phases[step.c]));
  }

  lemma {:induction false} RunIsBounded(callers: Callers, s: State, steps: seq<Step>)
    requires Legal(callers, s, steps)
    ensures |steps| + Rank(After(callers, s, steps)) <= Rank(s)
    decreases |steps|
  {
    if steps != [] {
      StepLowersRank(callers, s, steps[0]);
      RunIsBounded(callers, Apply(callers, s, steps[0]), steps[1..]);
    }
  }

  predicate AllDone(s: State) {
    forall c | c in s.phases :: s.phases[c].Done?
  }

  /** A step of a caller that neither fails nor returns early. */
  predicate Merging(s: State, step: Step) {
    !step.Return? && (step.Release? ==> step.c in s.phases && s.phases[step.c].Written?)
  }

  lemma HolderCanGoOn(callers: Callers, s: State, process: nat) returns (step: Step)
    requires MutexOk(callers, s) && LockOk(s) && process in s.mutex && (s.lock.Some? ==> s.lock.value == process)
    ensures Enabled(callers, s, step) && Merging(s, step)
  {
    var c := s.mutex[process];
    var p := s.phases[c];
    step := if p.HasMutex? then TakeLock(c)
            else if p.HasLock? then Read(c)
            else if p.Merged? then Write(c)
            else Release(c);
  }

  /** No deadlock: while a caller is not through, some caller can go on. */
  lemma NeverStuck(callers: Callers, s: State) returns (step: Step)
    requires MutexOk(callers, s) && LockOk(s) && !AllDone(s)
    ensures Enabled(callers, s, step) && Merging(s, step)
  {
    if s.lock.Some? {
      step := HolderCanGoOn(callers, s, s.lock.value);
    } else if s.mutex != map[] {
      var process :| process in s.mutex;
      step := HolderCanGoOn(callers, s, process);
    } else {
      var c :| c in s.phases && !s.phases[c].Done?;
      assert !InMutex(s.phases[c]);
      step := if s.phases[c].Begin? then TakeMutex(c) else Close(c);
    }
  }

  /** Every caller comes to its end, whatever fails: runs are bounded, and one that cannot go on has everyone through and
      both locks free. */
  lemma EveryCallerIsThrough(callers: Callers, steps: seq<Step>)
    requires Legal(callers, Start(callers), steps)
    ensures |steps| <= Rank(Start(callers))
    ensures var t := After(callers, Start(callers), steps);
      (forall step :: !Enabled(callers, t, step)) ==> AllDone(t) && t.mutex == map[] && t.lock == None
  {
    RunKeepsLocks(callers, Start(callers), steps);
    RunIsBounded(callers, Start(callers), steps);
    var t := After(callers, Start(callers), steps);
    if (forall step :: !Enabled(callers, t, step)) && !AllDone(t) {
      var step := NeverStuck(callers, t);
    }
    assert AllDone(t) ==> forall process | process in t.mutex :: false;
  }

  // ---------------------------------------------------------------- what is recorded in the end

  /** Callers that have written have their blocks on record. */
  ghost predicate RecordedOk(callers: Callers, s: State) {
    s.phases.Keys == callers.Keys &&
    forall c | c in callers && (s.phases[c].Written? || s.phases[c].Closing? || s.phases[c].Done?) ::
      callers[c].blocks <= s.bitmap
  }

  lemma StepRecords(callers: Callers, s: State, step: Step)
    requires Safe(callers) && Inv(callers, s) && RecordedOk(callers, s) && Enabled(callers, s, step) && Merging(s, step)
    ensures RecordedOk(callers, Apply(callers, s, step))
  {
    StepKeepsInv(callers, s, step);
    assert CallerOk(callers, s, step.c);
    StepMoves(callers, s, step);
  }

  predicate AllMerging(callers: Callers, s: State, steps: seq<Step>)
    requires Legal(callers, s, steps)
    decreases |steps|
  {
    steps == [] || (Merging(s, steps[0]) && AllMerging(callers, Apply(callers, s, steps[0]), steps[1..]))
  }

  lemma {:induction false} RunRecords(callers: Callers, s: State, steps: seq<Step>)
    requires Safe(callers) && Inv(callers, s) && RecordedOk(callers, s)
    requires Legal(callers, s, steps) && AllMerging(callers, s, steps)
    ensures RecordedOk(callers, After(callers, s, steps))
    decreases |steps|
  {
    if steps != [] {
      StepKeepsInv(callers, s, steps[0]);
      StepRecords(callers, s, steps[0]);
      RunRecords(callers, Apply(callers, s, steps[0]), steps[1..]);
    }
  }

  /** Safe callers that all merge have all their blocks on record in the end, whatever order they went in. */
  lemma EveryBlockIsRecorded(callers: Callers, steps: seq<Step>)
    requires Safe(callers) && Legal(callers, Start(callers), steps) && AllMerging(callers, Start(callers), steps)
    requires forall step :: !Enabled(callers, After(callers, Start(callers), steps), step)
    ensures forall c | c in callers :: callers[c].blocks <= After(callers, Start(callers), steps).bitmap
  {
    EveryCallerIsThrough(callers, steps);
    RunRecords(callers, Start(callers), steps);
  }

  /** And there is such a run for every set of callers. */
  lemma {:induction false} RunToEnd(callers: Callers, s: State) returns (steps: seq<Step>)
    requires MutexOk(callers, s) && LockOk(s)
    ensures Legal(callers, s, steps) && AllMerging(callers, s, steps) && AllDone(After(callers, s, steps))
    decreases Rank(s)
  {
    if AllDone(s) {
      steps := [];
    } else {
      var step := NeverStuck(callers, s);
      StepKeepsMutex(callers, s, step);
      StepKeepsLock(callers, s, step);
      StepLowersRank(callers, s, step);
      var rest := RunToEnd(callers, Apply(callers, s, step));
      steps := [step] + rest;
      assert steps[1..] == rest;
    }
  }
}
