/** Conservation: every accepted request is in exactly one place of the pool at all times. */
module FetchPoolProofs {
  import opened Files
  import opened FetchPool

  /** Worker w has item id in hand. */
  predicate Holds(worker: Worker, id: nat) {
    (worker.Busy? || worker.Finishing? || worker.Handing?) && worker.id == id
  }

  /** How many workers have item id in hand. */
  function Holders(workers: seq<Worker>, id: nat): nat {
    if workers == [] then 0 else (if Holds(workers[0], id) then 1 else 0) + Holders(workers[1..], id)
  }

  lemma {:induction false} HoldersUpdate(workers: seq<Worker>, w: nat, worker: Worker, id: nat)
    requires w < |workers|
    ensures Holders(workers[w := worker], id) + (if Holds(workers[w], id) then 1 else 0)
         == Holders(workers, id) + (if Holds(worker, id) then 1 else 0)
  {
    if w == 0 {
      assert workers[w := worker][1..] == workers[1..];
    } else {
      assert workers[w := worker][1..] == workers[1..][w - 1 := worker];
      HoldersUpdate(workers[1..], w - 1, worker, id);
    }
  }

  /** One worker holding an item counts once, two different ones at least twice. */
  lemma HolderCounts(workers: seq<Worker>, v: nat, w: nat, id: nat)
    requires v < |workers| && w < |workers| && Holds(workers[v], id) && Holds(workers[w], id)
    ensures Holders(workers, id) >= (if v == w then 1 else 2)
  {
    HoldersUpdate(workers, v, Idle, id);
    if v != w {
      HoldersUpdate(workers[v := Idle], w, Idle, id);
    }
  }

  lemma {:induction false} NoHolders(workers: seq<Worker>, id: nat)
    requires forall w | 0 <= w < |workers| :: !Holds(workers[w], id)
    ensures Holders(workers, id) == 0
  {
    if workers != [] {
      assert forall w | 0 <= w < |workers| - 1 :: workers[1..][w] == workers[w + 1];
      NoHolders(workers[1..], id);
    }
  }

  /** Waking workers changes nothing in what they hold. */
  lemma {:induction false} HoldersWoken(workers: seq<Worker>, id: nat)
    ensures Holders(AllWoken(workers), id) == Holders(workers, id)
  {
    if workers != [] {
      HoldersWoken(workers[1..], id);
    }
  }

  /** How often id occurs in a queue. */
  function Occurs(queue: seq<nat>, id: nat): nat {
    if queue == [] then 0 else (if queue[0] == id then 1 else 0) + Occurs(queue[1..], id)
  }

  lemma {:induction false} OccursAppend(a: seq<nat>, b: seq<nat>, id: nat)
    ensures Occurs(a + b, id) == Occurs(a, id) + Occurs(b, id)
  {
    if a == [] {
      assert a + b == b;
    } else {
      assert (a + b)[1..] == a[1..] + b;
      OccursAppend(a[1..], b, id);
    }
  }

  lemma {:induction false} OccursIn(queue: seq<nat>, id: nat)
    ensures id in queue <==> Occurs(queue, id) > 0
  {
    if queue != [] {
      OccursIn(queue[1..], id);
      assert queue == [queue[0]] + queue[1..];
    }
  }

  /** In how many places of the pool request id is. */
  function Places(s: State, id: nat): nat {
    Occurs(s.work, id) + Holders(s.workers, id) + Occurs(s.completion, id) + Occurs(s.drained, id) + Occurs(s.done, id)
  }

  /** Every accepted request is in exactly one place, and nothing else is in any. */
  ghost predicate Conserved(s: State) {
    && (forall id :: Places(s, id) == if id in s.items then 1 else 0)
    && (s.drained != [] ==> s.reactor.Answering?)
  }

  predicate OfWorker(step: Step) {
    step.Sleep? || step.SpuriousWakeup? || step.Pop? || step.Process? || step.SendFromWorker? || step.LeaveToReactor?
    || step.Push? || step.Notify? || step.Exit?
  }

  /** What each step of a worker does to the queues and to the worker. */
  lemma WorkerStepMoves(s: State, step: Step)
    requires Enabled(s, step) && OfWorker(step)
    ensures var t := Apply(s, step);
      && step.w < |s.workers| && |t.workers| == |s.workers|
      && t.workers == s.workers[step.w := t.workers[step.w]] && t.items.Keys == s.items.Keys
      && t.drained == s.drained && t.done == s.done
      && (if step.Pop? then s.work != [] && t.work == s.work[1..] else t.work == s.work)
      && (if step.Push? then s.workers[step.w].Handing? && t.completion == s.completion + [s.workers[step.w].id]
          else t.completion == s.completion)
      && forall id :: (if Holds(t.workers[step.w], id) then 1 else 0)
                      == (if Holds(s.workers[step.w], id) then 1 else 0)
                         + (if step.Pop? && s.work[0] == id then 1 else 0)
                         - (if step.Push? && s.workers[step.w].id == id then 1 else 0)
  {
  }

  lemma WorkerStepConserves(s: State, step: Step, id: nat)
    requires Enabled(s, step) && OfWorker(step)
    ensures Places(Apply(s, step), id) == Places(s, id)
    ensures Apply(s, step).items.Keys == s.items.Keys
  {
    WorkerStepMoves(s, step);
    HoldersUpdate(s.workers, step.w, Apply(s, step).workers[step.w], id);
    if step.Push? {
      OccursAppend(s.completion, [s.workers[step.w].id], id);
    }
  }

  lemma ReactorStepConserves(s: State, step: Step, id: nat)
    requires Conserved(s) && Enabled(s, step) && (step.Enqueue? || step.Take? || step.Answer? || step.Stop?)
    ensures Places(Apply(s, step), id) == Places(s, id) + (if step.Enqueue? && id == step.newId then 1 else 0)
  {
    if step.Enqueue? {
      OccursAppend(s.work, [step.newId], id);
      if step.signalled.Some? {
        HoldersUpdate(s.workers, step.signalled.value, Idle, id);
      }
    } else if step.Stop? {
      HoldersWoken(s.workers, id);
    } else if step.Answer? {
      OccursAppend(s.done, [s.drained[0]], id);
    }
  }

  lemma StepConservesOne(s: State, step: Step, id: nat)
    requires Conserved(s) && Enabled(s, step)
    ensures Places(Apply(s, step), id) == if id in Apply(s, step).items then 1 else 0
  {
    assert Places(s, id) == if id in s.items then 1 else 0;
    if OfWorker(step) {
      WorkerStepConserves(s, step, id);
    } else if step.Enqueue? || step.Take? || step.Answer? || step.Stop? {
      ReactorStepConserves(s, step, id);
    }
  }

  lemma StepConserves(s: State, step: Step)
    requires Conserved(s) && Enabled(s, step)
    ensures Conserved(Apply(s, step))
  {
    forall id: nat
      ensures Places(Apply(s, step), id) == if id in Apply(s, step).items then 1 else 0
    {
      StepConservesOne(s, step, id);
    }
  }

  /** The places of an accepted request exclude each other. */
  lemma PlacesExclude(s: State, id: nat)
    requires Conserved(s)
    ensures (if id in s.work then 1 else 0) + (if id in s.completion then 1 else 0) + (if id in s.drained then 1 else 0)
            + (if id in s.done then 1 else 0) + Holders(s.workers, id) <= 1
    ensures id in s.work || id in s.completion || id in s.drained || id in s.done || Holders(s.workers, id) > 0
            ==> id in s.items
  {
    assert Places(s, id) == if id in s.items then 1 else 0;
    OccursIn(s.work, id);
    OccursIn(s.completion, id);
    OccursIn(s.drained, id);
    OccursIn(s.done, id);
  }

  // ---------------------------------------------------------------- what leaves the module

  predicate Consumes(e: Event, id: nat) {
    (e.Sent? || e.Aborted?) && e.id == id
  }

  predicate Closes(e: Event, id: nat) {
    e.Closed? && e.id == id
  }

  /** How often the detached state of request id was consumed, by a send or by an abort. */
  function Consumptions(log: seq<Event>, id: nat): nat {
    if log == [] then 0 else (if Consumes(log[0], id) then 1 else 0) + Consumptions(log[1..], id)
  }

  /** How often the stream of request id was closed. */
  function Closings(log: seq<Event>, id: nat): nat {
    if log == [] then 0 else (if Closes(log[0], id) then 1 else 0) + Closings(log[1..], id)
  }

  lemma {:induction false} LogAppend(a: seq<Event>, b: seq<Event>, id: nat)
    ensures Consumptions(a + b, id) == Consumptions(a, id) + Consumptions(b, id)
    ensures Closings(a + b, id) == Closings(a, id) + Closings(b, id)
  {
    if a == [] {
      assert a + b == b;
    } else {
      assert (a + b)[1..] == a[1..] + b;
      LogAppend(a[1..], b, id);
    }
  }

  lemma AnswersCount(id: nat, item: Item, other: nat)
    ensures Consumptions(Answers(id, item), other) == if other == id && item.replyTo.Some? then 1 else 0
    ensures Closings(Answers(id, item), other) == if other == id then 1 else 0
  {
    var sends := if item.replyTo.Some? then [Consume(id, item)] else [];
    var close := [Closed(id, item.msg.from, CloseErrno(item))];
    assert Answers(id, item) == sends + close;
    LogAppend(sends, close, other);
  }

  ghost predicate ItemOk(s: State, id: nat)
    requires id in s.items
  {
    var item := s.items[id];
    && Consumptions(s.log, id) == (if item.replyTo.None? then 1 else 0)
    && Closings(s.log, id) == (if id in s.done then 1 else 0)
    && (item.replyTo.Some? ==> item.replyTo.value == item.msg.from && !item.sendFailed)
    && (item.sendFailed ==> item.outcome.Payload?)
    && (id in s.work ==> item.outcome.Pending? && item.replyTo.Some?)
    && (id in s.completion || id in s.drained ==> !item.outcome.Pending? && (s.safe <==> item.replyTo.None?))
    && (id in s.done ==> item.replyTo.None?)
    && (forall w | 0 <= w < |s.workers| && Holds(s.workers[w], id) ::
          && (s.workers[w].Busy? ==> item.outcome.Pending? && item.replyTo.Some?)
          && (s.workers[w].Finishing? ==> !item.outcome.Pending? && item.replyTo.Some?)
          && (s.workers[w].Handing? ==> !item.outcome.Pending? && (s.safe <==> item.replyTo.None?)))
  }

  /** Data is what the worker found for the request, an abort means that it found an error, both consume the detached
      state, and the end of stream carries the right error number; all go to the requester of the message they answer. */
  ghost predicate EventOk(s: State, e: Event) {
    e.id in s.items &&
    var item := s.items[e.id];
    match e
    case Sent(_, to, bytes) => to == item.msg.from && item.outcome == Payload(bytes) && item.replyTo.None?
    case Aborted(_) => item.outcome.Error? && item.replyTo.None?
    case Closed(id, to, errno) =>
      && to == item.msg.from && id in s.done && !item.outcome.Pending?
      && errno == (if item.outcome.Error? then item.outcome.errno else if item.sendFailed then 70 else 61)
  }

  ghost predicate ReactorOk(s: State) {
    && (s.reactor.Unpacked? ==> s.slot == Some(s.reactor.msg.from))
    && (s.reactor.Detached? ==> s.reactor.to == s.reactor.msg.from)
    && (s.shutdown <==> s.reactor.Joining? || s.reactor.Stopped?)
    && (s.reactor.Stopped? ==> forall w | 0 <= w < |s.workers| :: s.workers[w].Exited?)
  }

  /** Finished items on the completion queue always have a wakeup under way. */
  ghost predicate WakeupPending(s: State) {
    s.completion != [] ==>
      || 0 < s.pipe
      || (exists w :: 0 <= w < |s.workers| && s.workers[w].Notifying?)
      || s.reactor.Draining? || s.reactor.Taking?
  }

  predicate Awake(worker: Worker) {
    !worker.Asleep? && !worker.Exited?
  }

  /** A queued request always has a worker that will look at the queue, and after shutdown nobody sleeps. */
  ghost predicate WorkerAwake(s: State) {
    && (s.work != [] ==> exists w :: 0 <= w < |s.workers| && Awake(s.workers[w]))
    && (s.shutdown ==> forall w | 0 <= w < |s.workers| :: !s.workers[w].Asleep?)
  }

  ghost predicate Inv(s: State) {
    && 0 < s.capacity && 0 < |s.workers|
    && Conserved(s)
    && (forall id | id in s.items :: ItemOk(s, id))
    && (forall id: nat | id !in s.items :: Consumptions(s.log, id) == 0 && Closings(s.log, id) == 0)
    && (forall e | e in s.log :: EventOk(s, e))
    && ReactorOk(s)
    && WakeupPending(s)
    && WorkerAwake(s)
    && (forall w | 0 <= w < |s.workers| && s.workers[w].Exited? :: s.shutdown && s.work == [])
  }

  /** What a step may do to one worker: it stays awake unless it goes itself, and a wakeup byte that is due stays due
      until it is written. */
  lemma WorkerMoves(s: State, step: Step, w: nat)
    requires Enabled(s, step) && w < |s.workers|
    ensures |Apply(s, step).workers| == |s.workers|
    ensures Awake(s.workers[w]) && !step.Sleep? && !step.Exit? ==> Awake(Apply(s, step).workers[w])
    ensures s.workers[w].Notifying? && !step.Notify? ==> Apply(s, step).workers[w].Notifying?
    ensures s.workers[w].Notifying? && step.Notify? && step.w != w ==> Apply(s, step).workers[w].Notifying?
  {
  }

  /** The completion queue and the pipe, apart from the steps that are about them. */
  lemma CompletionMoves(s: State, step: Step)
    requires Enabled(s, step) && !step.Push? && !step.Take?
    ensures Apply(s, step).completion == s.completion
    ensures Apply(s, step).pipe < s.pipe ==> step.Drain?
    ensures step.Notify? ==> 0 < s.pipe || 0 < Apply(s, step).pipe || s.capacity == 0
    ensures s.reactor.Draining? || s.reactor.Taking? ==> Apply(s, step).reactor.Draining? || Apply(s, step).reactor.Taking?
    ensures step.Drain? ==> Apply(s, step).reactor.Draining?
  {
  }

  lemma StepKeepsWakeup(s: State, step: Step)
    requires WakeupPending(s) && 0 < s.capacity && Enabled(s, step)
    ensures WakeupPending(Apply(s, step))
  {
    if step.Push? {
      assert Apply(s, step).workers[step.w].Notifying?;
    } else if !step.Take? {
      CompletionMoves(s, step);
      if w: nat :| w < |s.workers| && s.workers[w].Notifying? {
        WorkerMoves(s, step, w);
        assert !step.Notify? ==> Apply(s, step).workers[w].Notifying?;
      }
    }
  }

  /** No lost signal: the one sent for a request wakes a worker, or nobody was asleep. */
  lemma EnqueueKeepsAwake(s: State, step: Step)
    requires Inv(s) && Enabled(s, step) && step.Enqueue?
    ensures WorkerAwake(Apply(s, step))
  {
    var t := Apply(s, step);
    if step.signalled.Some? {
      assert Awake(t.workers[step.signalled.value]);
    } else {
      assert !s.shutdown;
      assert Awake(t.workers[0]);
    }
  }

  lemma QueueGrowsByEnqueue(s: State, step: Step)
    requires Enabled(s, step) && !step.Enqueue? && Apply(s, step).work != []
    ensures s.work != [] && !step.Sleep? && !step.Exit?
  {
  }

  lemma NobodySleeps(s: State, step: Step, w: nat)
    requires WorkerAwake(s) && Enabled(s, step) && w < |Apply(s, step).workers| && Apply(s, step).shutdown
    ensures !Apply(s, step).workers[w].Asleep?
  {
  }

  lemma StepKeepsAwake(s: State, step: Step)
    requires Inv(s) && Enabled(s, step)
    ensures WorkerAwake(Apply(s, step))
  {
    var t := Apply(s, step);
    if step.Enqueue? {
      EnqueueKeepsAwake(s, step);
    } else {
      if t.work != [] {
        QueueGrowsByEnqueue(s, step);
        var w :| 0 <= w < |s.workers| && Awake(s.workers[w]);
        WorkerMoves(s, step, w);
      }
      forall w | 0 <= w < |t.workers| && t.shutdown
        ensures !t.workers[w].Asleep?
      {
        NobodySleeps(s, step, w);
      }
    }
  }

  lemma StepKeepsReactor(s: State, step: Step)
    requires ReactorOk(s) && Enabled(s, step)
    ensures ReactorOk(Apply(s, step))
  {
  }

  /** Who has left was there before, or found the queue empty after shutdown. */
  lemma LeaversMove(s: State, step: Step, w: nat)
    requires Enabled(s, step) && w < |Apply(s, step).workers| && Apply(s, step).workers[w].Exited?
    ensures w < |s.workers| && (s.workers[w].Exited? || (step.Exit? && s.shutdown && s.work == []))
  {
  }

  /** Workers leave only when the queue is empty and no request can be accepted any more. */
  lemma StepKeepsExit(s: State, step: Step, w: nat)
    requires Inv(s) && Enabled(s, step)
    requires w < |Apply(s, step).workers| && Apply(s, step).workers[w].Exited?
    ensures Apply(s, step).shutdown && Apply(s, step).work == []
  {
    LeaversMove(s, step, w);
    assert s.shutdown && s.work == [];
    QueueStaysEmpty(s, step);
  }

  lemma QueueStaysEmpty(s: State, step: Step)
    requires ReactorOk(s) && Enabled(s, step) && s.shutdown && s.work == []
    ensures Apply(s, step).shutdown && Apply(s, step).work == []
  {
  }

  /** The item that a step works on, if any. */
  function Subject(s: State, step: Step): Option<nat>
    requires Enabled(s, step)
  {
    match step
    case Enqueue(newId, _) => Some(newId)
    case Pop(w) => Some(s.work[0])
    case Process(w, _) => Some(s.workers[w].id)
    case SendFromWorker(w, _) => Some(s.workers[w].id)
    case LeaveToReactor(w) => Some(s.workers[w].id)
    case Push(w) => Some(s.workers[w].id)
    case Answer => Some(s.drained[0])
    case _ => None
  }

  /** What a step adds to the counts of one request. */
  lemma StepLog(s: State, step: Step, id: nat)
    requires Enabled(s, step)
    ensures Consumptions(Apply(s, step).log, id) == Consumptions(s.log, id) +
            (if Subject(s, step) == Some(id) &&
                (step.SendFromWorker? || (step.Answer? && s.items[id].replyTo.Some?)) then 1 else 0)
    ensures Closings(Apply(s, step).log, id) == Closings(s.log, id) +
            (if Subject(s, step) == Some(id) && step.Answer? then 1 else 0)
  {
    if step.SendFromWorker? {
      var subject := s.workers[step.w].id;
      LogAppend(s.log, [Consume(subject, s.items[subject])], id);
    } else if step.Answer? {
      LogAppend(s.log, Answers(s.drained[0], s.items[s.drained[0]]), id);
      AnswersCount(s.drained[0], s.items[s.drained[0]], id);
    }
  }

  /** Accepted requests stay accepted, with the message they came with. */
  lemma MessagesStay(s: State, step: Step)
    requires Enabled(s, step)
    ensures forall id | id in s.items :: id in Apply(s, step).items && Apply(s, step).items[id].msg == s.items[id].msg
  {
  }

  /** Where an item comes from: it was there, or it is the message the reactor has just detached; and what was found
      for it was there, or was found by the worker that holds it. */
  lemma ItemProvenance(s: State, step: Step, id: nat)
    requires Enabled(s, step) && id in Apply(s, step).items
    ensures var item := Apply(s, step).items[id];
      if id in s.items && !(step.Enqueue? && step.newId == id) then
        && item.msg == s.items[id].msg
        && (!item.outcome.Pending? ==>
              item.outcome == s.items[id].outcome
              || (step.Process? && s.workers[step.w].id == id && step.outcome == item.outcome))
      else
        step.Enqueue? && s.reactor.Detached? && item.msg == s.reactor.msg && item.outcome.Pending?
  {
  }

  lemma NewWorkerEvent(s: State, step: Step, e: Event)
    requires Inv(s) && Enabled(s, step) && step.SendFromWorker? && e in Apply(s, step).log && e !in s.log
    ensures EventOk(Apply(s, step), e) && Subject(s, step) == Some(e.id)
    ensures e.Sent? ==> e.id in s.items && s.items[e.id].outcome == Payload(e.bytes)
  {
    var id := s.workers[step.w].id;
    assert e == Consume(id, s.items[id]);
    HolderCounts(s.workers, step.w, step.w, id);
    PlacesExclude(s, id);
    assert ItemOk(s, id) && Holds(s.workers[step.w], id);
  }

  lemma NewReactorEvent(s: State, step: Step, e: Event)
    requires Inv(s) && Enabled(s, step) && step.Answer? && e in Apply(s, step).log && e !in s.log
    ensures EventOk(Apply(s, step), e) && Subject(s, step) == Some(e.id)
    ensures e.Sent? ==> e.id in s.items && s.items[e.id].outcome == Payload(e.bytes)
  {
    var id := s.drained[0];
    assert e in Answers(id, s.items[id]);
    assert ItemOk(s, id) && id in s.drained;
    assert id in Apply(s, step).done;
  }

  /** Every new event is right, and is about the step's subject. */
  lemma NewEvents(s: State, step: Step, e: Event)
    requires Inv(s) && Enabled(s, step) && e in Apply(s, step).log && e !in s.log
    ensures EventOk(Apply(s, step), e) && Subject(s, step) == Some(e.id)
    ensures e.Sent? ==> e.id in s.items && s.items[e.id].outcome == Payload(e.bytes)
  {
    if step.SendFromWorker? {
      NewWorkerEvent(s, step, e);
    } else if step.Answer? {
      NewReactorEvent(s, step, e);
    }
  }

  /** What a step may do to an item: only the worker that has it settles its outcome. */
  lemma ItemMoves(s: State, step: Step, id: nat)
    requires Enabled(s, step) && id in s.items
    ensures id in Apply(s, step).items
    ensures var a, b := s.items[id], Apply(s, step).items[id];
      && b.msg == a.msg && (a.replyTo.None? ==> b.replyTo.None?)
      && (!((step.Process? || step.SendFromWorker?) && s.workers[step.w].id == id) ==>
            b.outcome == a.outcome && b.sendFailed == a.sendFailed)
  {
  }

  /** What a worker found, and whether sending failed, is settled once, while the item is in a worker's hands and its
      state not consumed. */
  lemma FindingsStay(s: State, step: Step, id: nat)
    requires Inv(s) && Enabled(s, step) && id in s.items && (s.items[id].replyTo.None? || id in s.done)
    ensures id in Apply(s, step).items
    ensures var a, b := s.items[id], Apply(s, step).items[id];
      b.msg == a.msg && b.outcome == a.outcome && b.sendFailed == a.sendFailed && (a.replyTo.None? ==> b.replyTo.None?)
  {
    ItemMoves(s, step, id);
    if (step.Process? || step.SendFromWorker?) && s.workers[step.w].id == id {
      HolderCounts(s.workers, step.w, step.w, id);
      PlacesExclude(s, id);
      assert ItemOk(s, id) && Holds(s.workers[step.w], id);
    }
  }

  lemma DoneStays(s: State, step: Step)
    requires Enabled(s, step)
    ensures forall id | id in s.done :: id in Apply(s, step).done
  {
  }

  lemma StepKeepsEvents(s: State, step: Step, e: Event)
    requires Inv(s) && Enabled(s, step) && e in Apply(s, step).log
    ensures EventOk(Apply(s, step), e)
  {
    if e in s.log {
      assert EventOk(s, e);
      FindingsStay(s, step, e.id);
      DoneStays(s, step);
    } else {
      NewEvents(s, step, e);
    }
  }

  /** What a step leaves alone: every item but its subject, with its places. */
  ghost predicate SameAt(s: State, t: State, id: nat) {
    && id in s.items && id in t.items && s.items[id] == t.items[id] && s.safe == t.safe
    && (id in t.work <==> id in s.work)
    && (id in t.completion || id in t.drained <==> id in s.completion || id in s.drained)
    && (id in t.done <==> id in s.done)
    && |t.workers| == |s.workers|
    && (forall w | 0 <= w < |s.workers| && Holds(t.workers[w], id) :: t.workers[w] == s.workers[w])
  }

  /** The steps of a worker that hold on to their item. */
  lemma ItemStepFrame(s: State, step: Step, id: nat)
    requires Enabled(s, step) && id in s.items && Subject(s, step) != Some(id)
    requires step.Process? || step.SendFromWorker? || step.LeaveToReactor?
    ensures SameAt(s, Apply(s, step), id)
  {
  }

  lemma QueueStepFrame(s: State, step: Step, id: nat)
    requires Enabled(s, step) && id in s.items && Subject(s, step) != Some(id) && (step.Pop? || step.Push?)
    ensures SameAt(s, Apply(s, step), id)
  {
    if step.Pop? {
      assert s.work == [s.work[0]] + s.work[1..];
    }
  }

  lemma WorkerStepFrame(s: State, step: Step, id: nat)
    requires Enabled(s, step) && id in s.items && Subject(s, step) != Some(id) && OfWorker(step)
    ensures SameAt(s, Apply(s, step), id)
  {
    if step.Process? || step.SendFromWorker? || step.LeaveToReactor? {
      ItemStepFrame(s, step, id);
    } else if step.Pop? || step.Push? {
      QueueStepFrame(s, step, id);
    }
  }

  lemma ReactorStepFrame(s: State, step: Step, id: nat)
    requires Conserved(s) && Enabled(s, step) && id in s.items && Subject(s, step) != Some(id)
    requires step.Enqueue? || step.Take? || step.Answer?
    ensures SameAt(s, Apply(s, step), id)
  {
    if step.Answer? {
      assert s.drained == [s.drained[0]] + s.drained[1..];
    }
  }

  lemma StepFrame(s: State, step: Step, id: nat)
    requires Conserved(s) && Enabled(s, step) && id in s.items && Subject(s, step) != Some(id)
    ensures SameAt(s, Apply(s, step), id)
  {
    if OfWorker(step) {
      WorkerStepFrame(s, step, id);
    } else if step.Enqueue? || step.Take? || step.Answer? {
      ReactorStepFrame(s, step, id);
    }
  }

  lemma ItemOkFrame(s: State, t: State, id: nat)
    requires id in s.items && ItemOk(s, id) && SameAt(s, t, id)
    requires Consumptions(t.log, id) == Consumptions(s.log, id) && Closings(t.log, id) == Closings(s.log, id)
    ensures ItemOk(t, id)
  {
  }

  lemma OthersKeepItem(s: State, step: Step, id: nat)
    requires Inv(s) && Enabled(s, step) && id in s.items && Subject(s, step) != Some(id)
    ensures id in Apply(s, step).items && ItemOk(Apply(s, step), id)
  {
    StepLog(s, step, id);
    StepFrame(s, step, id);
    ItemOkFrame(s, Apply(s, step), id);
  }

  /** Enqueue and hand-over between queues and workers keep the subject's bookkeeping. */
  lemma QueueStepKeepsSubject(s: State, step: Step)
    requires Inv(s) && Enabled(s, step) && Subject(s, step).Some?
    requires step.Enqueue? || step.Pop? || step.Push?
    ensures var id := Subject(s, step).value;
      id in Apply(s, step).items && ItemOk(Apply(s, step), id)
  {
    var t := Apply(s, step);
    var id := Subject(s, step).value;
    StepConserves(s, step);
    PlacesExclude(s, id);
    PlacesExclude(t, id);
    StepLog(s, step, id);
    OneHolder(t, id);
    assert id in s.items ==> ItemOk(s, id);
  }

  lemma WorkerStepKeepsSubject(s: State, step: Step)
    requires Inv(s) && Enabled(s, step) && Subject(s, step).Some?
    requires step.Process? || step.SendFromWorker? || step.LeaveToReactor?
    ensures var id := Subject(s, step).value;
      id in Apply(s, step).items && ItemOk(Apply(s, step), id)
  {
    var t := Apply(s, step);
    var id := Subject(s, step).value;
    HolderCounts(s.workers, step.w, step.w, id);
    HolderCounts(t.workers, step.w, step.w, id);
    StepConserves(s, step);
    PlacesExclude(s, id);
    PlacesExclude(t, id);
    OneHolder(t, id);
    StepLog(s, step, id);
    assert ItemOk(s, id);
  }

  lemma AnswerKeepsSubject(s: State, step: Step)
    requires Inv(s) && Enabled(s, step) && step.Answer?
    ensures var id := s.drained[0];
      id in Apply(s, step).items && ItemOk(Apply(s, step), id)
  {
    var t := Apply(s, step);
    var id := s.drained[0];
    StepConserves(s, step);
    PlacesExclude(s, id);
    PlacesExclude(t, id);
    OneHolder(t, id);
    StepLog(s, step, id);
    assert ItemOk(s, id);
  }

  /** No two workers hold the same item. */
  lemma OneHolder(s: State, id: nat)
    requires Conserved(s)
    ensures forall w | 0 <= w < |s.workers| && Holds(s.workers[w], id) :: Holders(s.workers, id) > 0
    ensures forall v, w | 0 <= v < |s.workers| && 0 <= w < |s.workers| && Holds(s.workers[v], id)
                          && Holds(s.workers[w], id) :: v == w
  {
    PlacesExclude(s, id);
    forall v, w | 0 <= v < |s.workers| && 0 <= w < |s.workers| && Holds(s.workers[v], id) && Holds(s.workers[w], id)
      ensures v == w && Holders(s.workers, id) > 0
    {
      HolderCounts(s.workers, v, w, id);
    }
  }
}
