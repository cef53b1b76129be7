/** Progress of the fetch pool: left to itself (no new request, no pool stop) it cannot run for ever, and it cannot come
    to a halt before every accepted request is answered. File I/O is taken to return. */
module FetchPoolProgress {
  import opened Files
  import opened FetchPool
  import opened FetchPoolProofs
  import opened FetchPoolRuns

  /** Steps that need nothing from outside. */
  predicate Internal(step: Step) {
    !step.Unpack? && !step.OtherCallback? && !step.Stop? && !step.SpuriousWakeup?
  }

  predicate AllInternal(steps: seq<Step>) {
    forall i | 0 <= i < |steps| :: Internal(steps[i])
  }

  // ---------------------------------------------------------------- the pool comes to a halt

  /** Steps that a worker and what it has in hand may still cause. */
  function WorkerRank(worker: Worker): nat {
    match worker
    case Exited => 0
    case Asleep => 0
    case Idle => 1
    case Notifying => 8
    case Handing(_) => 11
    case Finishing(_) => 12
    case Busy(_) => 13
  }

  function WorkersRank(workers: seq<Worker>): nat {
    if workers == [] then 0 else WorkerRank(workers[0]) + WorkersRank(workers[1..])
  }

  /** Steps that the reactor may still take in its round; a wakeup that it has not seen yet costs another round. */
  function ReactorRank(reactor: Reactor, wakeup: bool): nat {
    match reactor
    case Stopped => if wakeup then 5 else 0
    case Waiting => if wakeup then 5 else 0
    case Joining => if wakeup then 6 else 1
    case Answering => if wakeup then 6 else 1
    case Taking => if wakeup then 7 else 2
    case Draining => if wakeup then 4 else 3
    case Detached(_, _) => if wakeup then 20 else 15
    case Unpacked(_) => if wakeup then 21 else 16
  }

  /** A bound on the internal steps that are left. */
  function Rank(s: State): nat {
    13 * |s.work| + WorkersRank(s.workers) + 2 * |s.completion| + |s.drained| + s.pipe
    + ReactorRank(s.reactor, 0 < s.pipe)
  }

  lemma {:induction false} WorkersRankUpdate(workers: seq<Worker>, w: nat, worker: Worker)
    requires w < |workers|
    ensures WorkersRank(workers[w := worker]) + WorkerRank(workers[w]) == WorkersRank(workers) + WorkerRank(worker)
  {
    if w == 0 {
      assert workers[w := worker][1..] == workers[1..];
    } else {
      assert workers[w := worker][1..] == workers[1..][w - 1 := worker];
      WorkersRankUpdate(workers[1..], w - 1, worker);
    }
  }

  lemma WorkerStepLowersRank(s: State, step: Step)
    requires Enabled(s, step) && OfWorker(step) && Internal(step)
    ensures Rank(Apply(s, step)) < Rank(s)
  {
    WorkersRankUpdate(s.workers, step.w, Apply(s, step).workers[step.w]);
  }

  /** Every internal step brings the pool nearer to its halt. */
  lemma StepLowersRank(s: State, step: Step)
    requires Enabled(s, step) && Internal(step)
    ensures Rank(Apply(s, step)) < Rank(s)
  {
    if OfWorker(step) {
      WorkerStepLowersRank(s, step);
    } else if step.Enqueue? && step.signalled.Some? {
      WorkersRankUpdate(s.workers, step.signalled.value, Idle);
    }
  }

  /** So a run of internal steps is no longer than the rank it starts with. */
  lemma {:induction false} InternalRunIsBounded(s: State, steps: seq<Step>)
    requires Legal(s, steps) && AllInternal(steps)
    ensures |steps| + Rank(After(s, steps)) <= Rank(s)
    decreases |steps|
  {
    if steps != [] {
      StepLowersRank(s, steps[0]);
      InternalRunIsBounded(Apply(s, steps[0]), steps[1..]);
    }
  }

  // ---------------------------------------------------------------- and not too early

  predicate AllDone(s: State) {
    forall id | id in s.items :: id in s.done
  }

  /** Every accepted request is done, or the pool was stopped. */
  predicate AtRest(s: State) {
    s.reactor.Stopped? || AllDone(s)
  }

  /** Nothing inside the pool stops it. */
  lemma {:induction false} ShutdownComesFromOutside(s: State, steps: seq<Step>)
    requires Legal(s, steps) && AllInternal(steps)
    ensures After(s, steps).shutdown == s.shutdown
    decreases |steps|
  {
    if steps != [] {
      ShutdownComesFromOutside(Apply(s, steps[0]), steps[1..]);
    }
  }

  lemma RestWithoutShutdown(s: State)
    requires Inv(s) && AtRest(s) && !s.shutdown
    ensures AllDone(s)
  {
  }

  /** A worker with something in hand can go on. */
  lemma WorkerCanGoOn(s: State, w: nat) returns (step: Step)
    requires Inv(s) && w < |s.workers| && Awake(s.workers[w]) && !s.workers[w].Idle?
    ensures Internal(step) && Enabled(s, step)
  {
    var worker := s.workers[w];
    if worker.Notifying? {
      step := Notify(w);
    } else {
      HolderCounts(s.workers, w, w, worker.id);
      PlacesExclude(s, worker.id);
      assert ItemOk(s, worker.id) && Holds(worker, worker.id);
      step := match worker
        case Busy(_) => Process(w, Error(0))
        case Finishing(_) => if s.safe then SendFromWorker(w, true) else LeaveToReactor(w)
        case _ => Push(w);
    }
  }

  /** A reactor that is inside a callback can go on. */
  lemma ReactorCanGoOn(s: State) returns (step: Step)
    requires Inv(s) && !s.reactor.Waiting? && !s.reactor.Joining? && !s.reactor.Stopped?
    ensures Internal(step) && Enabled(s, step)
  {
    match s.reactor {
      case Unpacked(_) => step := Refuse;
      case Detached(_, _) => step := Refuse;
      case Draining => step := if s.pipe == 0 then DrainEnd else Drain(1);
      case Taking => step := Take;
      case Answering =>
        if s.drained == [] {
          step := AnswerEnd;
        } else {
          PlacesExclude(s, s.drained[0]);
          step := Answer;
        }
    }
  }

  lemma JoinCanGoOn(s: State) returns (step: Step)
    requires Inv(s) && s.reactor.Joining?
    ensures Internal(step) && Enabled(s, step)
  {
    if w: nat :| w < |s.workers| && !s.workers[w].Exited? {
      if s.workers[w].Idle? {
        step := if s.work == [] then Exit(w) else Pop(w);
      } else {
        step := WorkerCanGoOn(s, w);
      }
    } else {
      step := Join;
    }
  }

  /** Workers that hold nothing, nothing queued, an empty pipe and a waiting reactor mean that everything is done. */
  lemma QuietMeansDone(s: State)
    requires Inv(s) && s.reactor.Waiting? && s.pipe == 0 && s.work == []
    requires forall w | 0 <= w < |s.workers| :: s.workers[w].Idle? || s.workers[w].Asleep?
    ensures AtRest(s)
  {
    forall id | id in s.items
      ensures id in s.done
    {
      NoHolders(s.workers, id);
      assert Places(s, id) == 1;
      OccursIn(s.done, id);
    }
  }

  /** No deadlock: as long as a request is unanswered and the pool not stopped, a worker or the reactor can go on. */
  lemma NeverStuck(s: State) returns (step: Step)
    requires Inv(s) && !AtRest(s)
    ensures Internal(step) && Enabled(s, step)
  {
    if s.reactor.Joining? {
      step := JoinCanGoOn(s);
    } else if !s.reactor.Waiting? {
      step := ReactorCanGoOn(s);
    } else if 0 < s.pipe {
      step := Wake;
    } else if w: nat :| w < |s.workers| && !s.workers[w].Idle? && !s.workers[w].Asleep? {
      step := WorkerCanGoOn(s, w);
    } else if s.work == [] {
      QuietMeansDone(s);
    } else {
      var w: nat :| w < |s.workers| && Awake(s.workers[w]);
      step := Pop(w);
    }
  }

  /** From every state that the invariant allows there is a run of internal steps to rest; unless the pool was told to
      stop, it answers every request. */
  lemma {:induction false} RunToRest(s: State) returns (later: seq<Step>)
    requires Inv(s)
    ensures Legal(s, later) && AllInternal(later) && AtRest(After(s, later))
    ensures !s.shutdown ==> AllDone(After(s, later))
    decreases Rank(s)
  {
    if AtRest(s) {
      later := [];
      if !s.shutdown {
        RestWithoutShutdown(s);
      }
    } else {
      var step := NeverStuck(s);
      StepKeepsInv(s, step);
      StepLowersRank(s, step);
      assert Apply(s, step).shutdown == s.shutdown;
      var rest := RunToRest(Apply(s, step));
      later := [step] + rest;
      assert later[1..] == rest;
    }
  }

  /** Every accepted request is answered: from any reachable state, a run of internal steps has at most so many steps
      as the rank, and when it cannot go on, every request accepted so far is done, unless the pool was told to stop,
      in which case it has stopped or has them done. */
  lemma EveryRequestIsAnswered(start: State, before: seq<Step>, later: seq<Step>)
    requires Init(start) && Legal(start, before) && Legal(After(start, before), later) && AllInternal(later)
    ensures |later| <= Rank(After(start, before))
    ensures (forall step | Internal(step) :: !Enabled(After(After(start, before), later), step))
            ==> AtRest(After(After(start, before), later)) &&
                (!After(start, before).shutdown ==> AllDone(After(After(start, before), later)))
  {
    InitHolds(start);
    RunKeepsInv(start, before);
    RunKeepsInv(After(start, before), later);
    InternalRunIsBounded(After(start, before), later);
    var s := After(After(start, before), later);
    ShutdownComesFromOutside(After(start, before), later);
    if !AtRest(s) {
      var step := NeverStuck(s);
    } else if !s.shutdown {
      RestWithoutShutdown(s);
    }
  }
}
