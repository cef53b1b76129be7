/** The lock on a bitmap file as POSIX has it: a record lock belongs to a process, the threads of a process are kept apart
    by a mutex, and a process loses its lock on a file whenever it closes any descriptor of that file. Every call closes
    its own descriptor after it has let go of the mutex, while another thread of its process may be merging.

    Each caller here is one call of dyad_range_cache_ensure that comes to its last part (reading, merging and writing the
    bitmap) or returns before. A bitmap is the set of blocks that it stands for. */
module RecordLocks {
  import opened Files

  /** The process that a caller is a thread of, and the blocks that it records. */
  datatype Caller = Caller(process: nat, blocks: set<nat>)

  type Callers = map<nat, Caller>

  datatype Phase =
    | Begin
    | HasMutex                     // waiting for the record lock
    | HasLock
    | Merged(buffer: set<nat>)     // bitmap read, own blocks added to the copy
    | Written
    | Closing                      // mutex given up, descriptor to be closed
    | Done

  datatype State = State(
    bitmap: set<nat>,
    mutex: map<nat, nat>,          // for each process, the caller that has its mutex
    lock: Option<nat>,             // the process that has the record lock
    phases: map<nat, Phase>)
  {
    function To(c: nat, phase: Phase): State {
      this.(phases := phases[c := phase])
    }

    /** What closing a descriptor, or unlocking, does to the record lock. */
    function Without(process: nat): State {
      this.(lock := if lock == Some(process) then None else lock)
    }
  }

  datatype Step =
    | Return(c: nat)       // found its blocks recorded, or failed
    | TakeMutex(c: nat)
    | TakeLock(c: nat)
    | Read(c: nat)
    | Write(c: nat)
    | Release(c: nat)
    | Close(c: nat)

  function Start(callers: Callers): State {
    State({}, map[], None, map c | c in callers :: Begin)
  }

  predicate At(callers: Callers, s: State, c: nat) {
    c in callers && c in s.phases
  }

  predicate Enabled(callers: Callers, s: State, step: Step) {
    At(callers, s, step.c) &&
    var p, process := s.phases[step.c], callers[step.c].process;
    match step
    case Return(_) => p.Begin?
    case TakeMutex(_) => p.Begin? && process !in s.mutex
    // the lock of one process never blocks another thread of it
    case TakeLock(_) => p.HasMutex? && (s.lock == None || s.lock == Some(process))
    case Read(_) => p.HasLock?
    case Write(_) => p.Merged?
    case Release(_) => p.HasMutex? || p.HasLock? || p.Merged? || p.Written?
    case Close(_) => p.Closing?
  }

  function Apply(callers: Callers, s: State, step: Step): State
    requires Enabled(callers, s, step)
  {
    var c, process := step.c, callers[step.c].process;
    match step
    case Return(_) => s.To(c, Closing)
    case TakeMutex(_) => s.(mutex := s.mutex[process := c]).To(c, HasMutex)
    case TakeLock(_) => s.(lock := Some(process)).To(c, HasLock)
    case Read(_) => s.To(c, Merged(s.bitmap + callers[c].blocks))
    case Write(_) => s.(bitmap := s.phases[c].buffer).To(c, Written)
    case Release(_) => s.Without(process).(mutex := s.mutex - {process}).To(c, Closing)
    case Close(_) => s.Without(process).To(c, Done)
  }

  predicate Legal(callers: Callers, s: State, steps: seq<Step>)
    decreases |steps|
  {
    steps == [] || (Enabled(callers, s, steps[0]) && Legal(callers, Apply(callers, s, steps[0]), steps[1..]))
  }

  function After(callers: Callers, s: State, steps: seq<Step>): State
    requires Legal(callers, s, steps)
    decreases |steps|
  {
    if steps == [] then s else After(callers, Apply(callers, s, steps[0]), steps[1..])
  }

  // ---------------------------------------------------------------- callers that lose nothing

  /** No other caller is in the same process. */
  predicate Alone(callers: Callers, c: nat)
    requires c in callers
  {
    forall a | a in callers && a != c :: callers[a].process != callers[c].process
  }

  /** Callers of different processes are each alone in theirs, or record the same blocks. */
  predicate Safe(callers: Callers) {
    forall b, c | b in callers && c in callers && callers[b].process != callers[c].process ::
      (Alone(callers, b) && Alone(callers, c)) || callers[b].blocks == callers[c].blocks
  }

  /** From taking the mutex to giving it up. */
  predicate InMutex(p: Phase) {
    p.HasMutex? || p.HasLock? || p.Merged? || p.Written?
  }

  ghost predicate CallerOk(callers: Callers, s: State, c: nat)
    requires At(callers, s, c)
  {
    var p, process := s.phases[c], callers[c].process;
    && (InMutex(p) ==> process in s.mutex && s.mutex[process] == c)
    // nobody else closes a descriptor in the process of a caller that is alone
    && ((p.HasLock? || p.Merged? || p.Written?) && Alone(callers, c) ==> s.lock == Some(process))
    && (p.Merged? ==> p.buffer == s.bitmap + callers[c].blocks)
  }

  ghost predicate Inv(callers: Callers, s: State) {
    s.phases.Keys == callers.Keys && forall c | c in callers :: CallerOk(callers, s, c)
  }

  lemma OwnKeeps(callers: Callers, s: State, step: Step)
    requires Safe(callers) && Inv(callers, s) && Enabled(callers, s, step)
    ensures CallerOk(callers, Apply(callers, s, step), step.c)
  {
    assert CallerOk(callers, s, step.c);
  }

  /** A write by another caller adds nothing that the copy at hand does not have: both are alone, and then only one can
      have the lock, or both record the same blocks. */
  lemma WriteKeepsCopy(callers: Callers, s: State, step: Step, c: nat)
    requires Safe(callers) && Inv(callers, s) && Enabled(callers, s, step) && step.Write?
    requires c in callers && c != step.c && s.phases[c].Merged?
    ensures s.phases[step.c].buffer + callers[c].blocks == s.phases[c].buffer
  {
    assert CallerOk(callers, s, step.c) && CallerOk(callers, s, c);
  }

  lemma OthersKeep(callers: Callers, s: State, step: Step, c: nat)
    requires Safe(callers) && Inv(callers, s) && Enabled(callers, s, step) && c in callers && c != step.c
    ensures CallerOk(callers, Apply(callers, s, step), c)
  {
    assert CallerOk(callers, s, step.c) && CallerOk(callers, s, c);
    assert Alone(callers, c) ==> callers[step.c].process != callers[c].process;
    if step.Write? && s.phases[c].Merged? {
      WriteKeepsCopy(callers, s, step, c);
    }
  }

  lemma StepKeepsInv(callers: Callers, s: State, step: Step)
    requires Safe(callers) && Inv(callers, s) && Enabled(callers, s, step)
    ensures Inv(callers, Apply(callers, s, step)) && s.bitmap <= Apply(callers, s, step).bitmap
  {
    assert CallerOk(callers, s, step.c);
    forall c | c in callers
      ensures CallerOk(callers, Apply(callers, s, step), c)
    {
      if c == step.c {
        OwnKeeps(callers, s, step);
      } else {
        OthersKeep(callers, s, step, c);
      }
    }
  }

  lemma {:induction false} SafeRunGrows(callers: Callers, s: State, steps: seq<Step>)
    requires Safe(callers) && Inv(callers, s) && Legal(callers, s, steps)
    ensures Inv(callers, After(callers, s, steps)) && s.bitmap <= After(callers, s, steps).bitmap
    decreases |steps|
  {
    if steps != [] {
      StepKeepsInv(callers, s, steps[0]);
      SafeRunGrows(callers, Apply(callers, s, steps[0]), steps[1..]);
    }
  }

  // ---------------------------------------------------------------- callers that do

  lemma One(callers: Callers, s: State, step: Step)
    requires Enabled(callers, s, step)
    ensures Legal(callers, s, [step]) && After(callers, s, [step]) == Apply(callers, s, step)
  {
    assert [step][1..] == [];
  }

  lemma {:induction false} Concat(callers: Callers, s: State, a: seq<Step>, b: seq<Step>)
    requires Legal(callers, s, a) && Legal(callers, After(callers, s, a), b)
    ensures Legal(callers, s, a + b) && After(callers, s, a + b) == After(callers, After(callers, s, a), b)
    decreases |a|
  {
    if a == [] {
      assert a + b == b;
    } else {
      assert (a + b)[1..] == a[1..] + b;
      Concat(callers, Apply(callers, s, a[0]), a[1..], b);
    }
  }

  /** A caller that takes the mutex and the lock and reads the bitmap. */
  function Acquiring(c: nat): seq<Step> {
    [TakeMutex(c)] + ([TakeLock(c)] + [Read(c)])
  }

  lemma AcquiringRuns(callers: Callers, s: State, c: nat)
    requires At(callers, s, c) && s.phases[c].Begin? && callers[c].process !in s.mutex && s.lock == None
    ensures Legal(callers, s, Acquiring(c))
    ensures var process := callers[c].process;
      After(callers, s, Acquiring(c))
      == s.(mutex := s.mutex[process := c], lock := Some(process)).To(c, Merged(s.bitmap + callers[c].blocks))
  {
    One(callers, s, TakeMutex(c));
    var s1 := Apply(callers, s, TakeMutex(c));
    One(callers, s1, TakeLock(c));
    var s2 := Apply(callers, s1, TakeLock(c));
    One(callers, s2, Read(c));
    Concat(callers, s1, [TakeLock(c)], [Read(c)]);
    Concat(callers, s, [TakeMutex(c)], [TakeLock(c)] + [Read(c)]);
    assert s.phases[c := HasMutex][c := HasLock][c := Merged(s.bitmap + callers[c].blocks)]
        == s.phases[c := Merged(s.bitmap + callers[c].blocks)];
  }

  /** Two callers of different processes that both hold a copy of the empty bitmap. */
  predicate Crossed(callers: Callers, s: State, b: nat, c: nat) {
    && At(callers, s, b) && At(callers, s, c) && b != c
    && s.phases[b] == Merged(callers[b].blocks) && s.phases[c] == Merged(callers[c].blocks)
  }

  /** Caller a closes its descriptor while p is merging in the same process, and q gets the lock that p lost. */
  lemma LockIsLost(callers: Callers, a: nat, p: nat, q: nat) returns (steps: seq<Step>)
    requires a in callers && p in callers && q in callers && a != p && a != q
    requires callers[a].process == callers[p].process != callers[q].process
    ensures Legal(callers, Start(callers), steps) && Crossed(callers, After(callers, Start(callers), steps), p, q)
  {
    var s := Start(callers);
    One(callers, s, Return(a));
    var s1 := Apply(callers, s, Return(a));
    AcquiringRuns(callers, s1, p);
    var s2 := After(callers, s1, Acquiring(p));
    One(callers, s2, Close(a));
    var s3 := Apply(callers, s2, Close(a));
    AcquiringRuns(callers, s3, q);
    Concat(callers, s2, [Close(a)], Acquiring(q));
    Concat(callers, s1, Acquiring(p), [Close(a)] + Acquiring(q));
    Concat(callers, s, [Return(a)], Acquiring(p) + ([Close(a)] + Acquiring(q)));
    steps := [Return(a)] + (Acquiring(p) + ([Close(a)] + Acquiring(q)));
    assert {} + callers[p].blocks == callers[p].blocks && {} + callers[q].blocks == callers[q].blocks;
  }

  /** The run that begins with `before` and goes on with `later` loses block x. */
  ghost predicate Loses(callers: Callers, before: seq<Step>, later: seq<Step>, x: nat) {
    && Legal(callers, Start(callers), before)
    && Legal(callers, After(callers, Start(callers), before), later)
    && x in After(callers, Start(callers), before).bitmap
    && x !in After(callers, After(callers, Start(callers), before), later).bitmap
  }

  /** When both hold a copy, the one that writes last wipes out what the other has alone. */
  lemma LastWriteWins(callers: Callers, steps: seq<Step>, b: nat, c: nat, x: nat)
    requires Legal(callers, Start(callers), steps) && Crossed(callers, After(callers, Start(callers), steps), b, c)
    requires x in callers[c].blocks && x !in callers[b].blocks
    ensures Loses(callers, steps + [Write(c)], [Write(b)], x)
  {
    var s := After(callers, Start(callers), steps);
    One(callers, s, Write(c));
    var s1 := Apply(callers, s, Write(c));
    One(callers, s1, Write(b));
    Concat(callers, Start(callers), steps, [Write(c)]);
  }

  lemma {:induction false} UnsafeLoses(callers: Callers) returns (before: seq<Step>, later: seq<Step>, x: nat)
    requires !Safe(callers)
    ensures Loses(callers, before, later, x)
  {
    var b, c :| b in callers && c in callers && callers[b].process != callers[c].process
             && !(Alone(callers, b) && Alone(callers, c)) && callers[b].blocks != callers[c].blocks;
    // the caller that has a block which the other has not
    var keeper, loser := if callers[c].blocks <= callers[b].blocks then c else b,
                         if callers[c].blocks <= callers[b].blocks then b else c;
    x :| x in callers[loser].blocks && x !in callers[keeper].blocks;
    var steps;
    if !Alone(callers, b) {
      var a :| a in callers && a != b && callers[a].process == callers[b].process;
      steps := LockIsLost(callers, a, b, c);
    } else {
      var a :| a in callers && a != c && callers[a].process == callers[c].process;
      steps := LockIsLost(callers, a, c, b);
    }
    LastWriteWins(callers, steps, keeper, loser, x);
    before, later := steps + [Write(loser)], [Write(keeper)];
  }

  /** With the locks that POSIX gives, exactly when no run loses a recorded block: when callers of different processes are
      each alone in theirs, or record the same blocks. */
  lemma NothingLostIff(callers: Callers)
    ensures (forall before, later, x :: !Loses(callers, before, later, x)) <==> Safe(callers)
  {
    if Safe(callers) {
      forall before, later, x
        ensures !Loses(callers, before, later, x)
      {
        if Legal(callers, Start(callers), before) && Legal(callers, After(callers, Start(callers), before), later) {
          SafeRunGrows(callers, Start(callers), before);
          SafeRunGrows(callers, After(callers, Start(callers), before), later);
        }
      }
    } else {
      var before, later, x := UnsafeLoses(callers);
    }
  }

  /** Threads of one process, and processes of one thread, lose nothing. */
  lemma OneProcessOrOneThreadEach(callers: Callers)
    requires (forall b, c | b in callers && c in callers :: callers[b].process == callers[c].process)
             || (forall c | c in callers :: Alone(callers, c))
    ensures forall before, later, x :: !Loses(callers, before, later, x)
  {
    NothingLostIff(callers);
  }

  /** Two threads of one process and one of another are enough to lose a block, though each takes both locks. */
  lemma ThreeCallersLose() returns (before: seq<Step>, later: seq<Step>)
    ensures Loses(map[0 := Caller(0, {}), 1 := Caller(0, {1}), 2 := Caller(1, {2})], before, later, 2)
  {
    var callers := map[0 := Caller(0, {}), 1 := Caller(0, {1}), 2 := Caller(1, {2})];
    var steps := LockIsLost(callers, 0, 1, 2);
    LastWriteWins(callers, steps, 1, 2, 2);
    before, later := steps + [Write(2)], [Write(1)];
  }
}
