/** Theorems over whole runs of the fetch pool. */
module FetchPoolRuns {
  import opened Files
  import opened FetchPool
  import opened FetchPoolProofs

  lemma SubjectKept(s: State, step: Step)
    requires Inv(s) && Enabled(s, step) && Subject(s, step).Some?
    ensures var id := Subject(s, step).value;
      id in Apply(s, step).items && ItemOk(Apply(s, step), id)
  {
    if step.Answer? {
      AnswerKeepsSubject(s, step);
    } else if step.Enqueue? || step.Pop? || step.Push? {
      QueueStepKeepsSubject(s, step);
    } else {
      WorkerStepKeepsSubject(s, step);
    }
  }

  /** A step makes only its subject an accepted request. */
  lemma NewItemIsSubject(s: State, step: Step, id: nat)
    requires Enabled(s, step) && Subject(s, step) != Some(id)
    ensures id in Apply(s, step).items <==> id in s.items
  {
  }

  lemma StepKeepsInv(s: State, step: Step)
    requires Inv(s) && Enabled(s, step)
    ensures Inv(Apply(s, step))
  {
    var t := Apply(s, step);
    StepConserves(s, step);
    StepKeepsReactor(s, step);
    StepKeepsWakeup(s, step);
    StepKeepsAwake(s, step);
    if Subject(s, step).Some? {
      SubjectKept(s, step);
    }
    forall id: nat
      ensures id in t.items ==> ItemOk(t, id)
      ensures id !in t.items ==> Consumptions(t.log, id) == 0 && Closings(t.log, id) == 0
    {
      if Subject(s, step) != Some(id) {
        NewItemIsSubject(s, step, id);
        StepLog(s, step, id);
        if id in s.items {
          OthersKeepItem(s, step, id);
        }
      }
    }
    forall e | e in t.log
      ensures EventOk(t, e)
    {
      StepKeepsEvents(s, step, e);
    }
    forall w | 0 <= w < |t.workers| && t.workers[w].Exited?
      ensures t.shutdown && t.work == []
    {
      StepKeepsExit(s, step, w);
    }
    SizesStay(s, step);
  }

  lemma SizesStay(s: State, step: Step)
    requires Enabled(s, step)
    ensures Apply(s, step).capacity == s.capacity && |Apply(s, step).workers| == |s.workers|
  {
  }

  lemma InitHolds(s: State)
    requires Init(s)
    ensures Inv(s)
  {
    forall id: nat
      ensures Places(s, id) == 0
    {
      NoHolders(s.workers, id);
    }
  }

  lemma {:induction false} RunKeepsInv(s: State, steps: seq<Step>)
    requires Inv(s) && Legal(s, steps)
    ensures Inv(After(s, steps))
    decreases |steps|
  {
    if steps != [] {
      StepKeepsInv(s, steps[0]);
      RunKeepsInv(Apply(s, steps[0]), steps[1..]);
    }
  }

  /** Conservation: in every reachable state an accepted request is in exactly one of the work queue, a worker's
      hands, the completion queue, the reactor's drained list and done; anything else is in none. */
  lemma RequestInExactlyOnePlace(start: State, steps: seq<Step>, id: nat)
    requires Init(start) && Legal(start, steps)
    ensures var s := After(start, steps);
      Occurs(s.work, id) + Holders(s.workers, id) + Occurs(s.completion, id) + Occurs(s.drained, id) + Occurs(s.done, id)
      == if id in s.items then 1 else 0
  {
    InitHolds(start);
    RunKeepsInv(start, steps);
    assert Places(After(start, steps), id) == if id in After(start, steps).items then 1 else 0;
  }

  /** Detached state is never consumed twice and no stream is closed twice; once a request is done, both have happened
      exactly once, and until then its stream is open. */
  lemma ConsumedAndClosedOnce(start: State, steps: seq<Step>, id: nat)
    requires Init(start) && Legal(start, steps)
    ensures var s := After(start, steps);
      && Consumptions(s.log, id) <= 1
      && Closings(s.log, id) == (if id in s.done then 1 else 0)
      && (id in s.done ==> id in s.items && Consumptions(s.log, id) == 1)
  {
    InitHolds(start);
    RunKeepsInv(start, steps);
    var s := After(start, steps);
    PlacesExclude(s, id);
    assert id in s.items ==> ItemOk(s, id);
  }

  /** Reply routing: whatever order requests share the transport's slot in, every data message and every end of stream
      goes to the requester whose message was unpacked for that request. */
  lemma RepliesGoToRequester(start: State, steps: seq<Step>, e: Event)
    requires Init(start) && Legal(start, steps) && e in After(start, steps).log
    ensures var s := After(start, steps);
      && e.id in s.items
      && (e.Sent? || e.Closed? ==> e.to == s.items[e.id].msg.from)
  {
    InitHolds(start);
    RunKeepsInv(start, steps);
    assert EventOk(After(start, steps), e);
  }

  lemma {:induction false} SomeConsumption(log: seq<Event>, id: nat)
    requires Consumptions(log, id) > 0
    ensures exists e | e in log :: Consumes(e, id)
  {
    if Consumes(log[0], id) {
      assert log[0] in log;
    } else {
      SomeConsumption(log[1..], id);
      var e :| e in log[1..] && Consumes(e, id);
      assert e in log;
    }
  }

  lemma {:induction false} SomeClosing(log: seq<Event>, id: nat)
    requires Closings(log, id) > 0
    ensures exists e | e in log :: Closes(e, id)
  {
    if Closes(log[0], id) {
      assert log[0] in log;
    } else {
      SomeClosing(log[1..], id);
      var e :| e in log[1..] && Closes(e, id);
      assert e in log;
    }
  }

  lemma {:induction false} NoConsumption(log: seq<Event>, id: nat)
    requires Consumptions(log, id) == 0
    ensures forall e | e in log :: !Consumes(e, id)
  {
    if log != [] {
      NoConsumption(log[1..], id);
      assert log == [log[0]] + log[1..];
    }
  }

  /** A successful request gets its data, and a failed one none: in every reachable state, a request whose detached state
      is consumed had it consumed by sending what the worker found, to the requester, or by an abort if the worker found
      an error; one whose state is not consumed had neither. */
  lemma DataIsSent(start: State, steps: seq<Step>, id: nat)
    requires Init(start) && Legal(start, steps) && id in After(start, steps).items
    ensures var s := After(start, steps);
      var item := s.items[id];
      && (item.replyTo.None? ==>
            match item.outcome
            case Payload(bytes) => Sent(id, item.msg.from, bytes) in s.log && Aborted(id) !in s.log
            case Error(_) => Aborted(id) in s.log && forall e | e in s.log && e.Sent? :: e.id != id
            case Pending => false)
      && (item.replyTo.Some? ==> Aborted(id) !in s.log && forall e | e in s.log && e.Sent? :: e.id != id)
  {
    InitHolds(start);
    RunKeepsInv(start, steps);
    var s := After(start, steps);
    assert ItemOk(s, id);
    if s.items[id].replyTo.None? {
      SomeConsumption(s.log, id);
      var e :| e in s.log && Consumes(e, id);
      assert EventOk(s, e);
      if Aborted(id) in s.log {
        assert EventOk(s, Aborted(id));
      }
      forall e | e in s.log && e.Sent? && s.items[id].outcome.Error?
        ensures e.id != id
      {
        assert EventOk(s, e);
      }
    } else {
      NoConsumption(s.log, id);
      assert Consumes(Aborted(id), id);
      forall e | e in s.log && e.Sent?
        ensures e.id != id
      {
        assert !Consumes(e, id);
      }
    }
  }

  /** How a stream ends: once a request is done, its requester got the end of stream (ENODATA) if the worker found the data
      and any send of its own worked, the worker's error if it found none, and ECOMM if its send failed. */
  lemma CloseTellsOutcome(start: State, steps: seq<Step>, id: nat)
    requires Init(start) && Legal(start, steps) && id in After(start, steps).done
    ensures var s := After(start, steps);
      && id in s.items
      && var item := s.items[id];
      var errno := match item.outcome case Error(n) => n case _ => if item.sendFailed then 70 else 61;
      && !item.outcome.Pending? && Closed(id, item.msg.from, errno) in s.log
      && forall e | e in s.log && e.Closed? && e.id == id :: e == Closed(id, item.msg.from, errno)
  {
    InitHolds(start);
    RunKeepsInv(start, steps);
    var s := After(start, steps);
    PlacesExclude(s, id);
    assert ItemOk(s, id);
    SomeClosing(s.log, id);
    var e :| e in s.log && Closes(e, id);
    assert EventOk(s, e);
    forall e | e in s.log && e.Closed? && e.id == id
      ensures e.to == s.items[id].msg.from
    {
      assert EventOk(s, e);
    }
  }

  lemma DoneIsConsumed(s: State, id: nat)
    requires Inv(s) && id in s.done
    ensures id in s.items && s.items[id].replyTo.None?
  {
    PlacesExclude(s, id);
    assert id in s.items ==> ItemOk(s, id);
  }

  /** A send counts as failed exactly when it was a worker's, of data, and the transport said so. */
  lemma SendFailedIff(s: State, w: nat, sendOk: bool)
    requires Enabled(s, SendFromWorker(w, sendOk))
    ensures var id := s.workers[w].id;
      Apply(s, SendFromWorker(w, sendOk)).items[id].sendFailed <==> s.items[id].outcome.Payload? && !sendOk
  {
  }

  lemma PipeStep(s: State, step: Step)
    requires Enabled(s, step) && s.pipe <= s.capacity
    ensures Apply(s, step).pipe <= Apply(s, step).capacity == s.capacity
  {
  }

  lemma {:induction false} PipeRun(s: State, steps: seq<Step>)
    requires Legal(s, steps) && s.pipe <= s.capacity
    ensures After(s, steps).pipe <= After(s, steps).capacity == s.capacity
    decreases |steps|
  {
    if steps != [] {
      PipeStep(s, steps[0]);
      PipeRun(Apply(s, steps[0]), steps[1..]);
    }
  }

  /** Wakeup bytes never exceed what the pipe holds: no worker waits for room in it. */
  lemma PipeNeverOverflows(start: State, steps: seq<Step>)
    requires Init(start) && Legal(start, steps)
    ensures After(start, steps).pipe <= start.capacity
  {
    PipeRun(start, steps);
  }

  /** No lost wakeup, whether or not bytes were refused by a full pipe. */
  lemma NoLostWakeup(start: State, steps: seq<Step>)
    requires Init(start) && Legal(start, steps)
    ensures var s := After(start, steps);
      s.completion != [] ==>
        || 0 < s.pipe
        || (exists w :: 0 <= w < |s.workers| && s.workers[w].Notifying?)
        || s.reactor.Draining? || s.reactor.Taking?
  {
    InitHolds(start);
    RunKeepsInv(start, steps);
  }

  /** No lost signal: in every reachable state a queued request has a worker that is not asleep (and has not left), so
      that somebody will look at the queue. */
  lemma NoLostSignal(start: State, steps: seq<Step>)
    requires Init(start) && Legal(start, steps)
    ensures var s := After(start, steps);
      s.work != [] ==> exists w :: 0 <= w < |s.workers| && !s.workers[w].Asleep? && !s.workers[w].Exited?
  {
    InitHolds(start);
    RunKeepsInv(start, steps);
    var s := After(start, steps);
    if s.work != [] {
      var w :| 0 <= w < |s.workers| && Awake(s.workers[w]);
    }
  }

  /** When the pool has come to rest, nothing is left unanswered: with the reactor in its loop, an empty pipe, and
      every worker asleep or about to be, every accepted request is done. */
  lemma RestMeansAnswered(start: State, steps: seq<Step>, id: nat)
    requires Init(start) && Legal(start, steps)
    requires var s := After(start, steps);
      && s.reactor.Waiting? && s.pipe == 0 && s.work == []
      && forall w | 0 <= w < |s.workers| :: s.workers[w].Idle? || s.workers[w].Asleep?
    ensures id in After(start, steps).items <==> id in After(start, steps).done
  {
    InitHolds(start);
    RunKeepsInv(start, steps);
    var s := After(start, steps);
    NoHolders(s.workers, id);
    assert Places(s, id) == if id in s.items then 1 else 0;
    OccursIn(s.done, id);
  }

  /** After pool stop the requests without an answer are exactly those left on the completion queue. */
  lemma StopLeavesCompletionQueue(start: State, steps: seq<Step>, id: nat)
    requires Init(start) && Legal(start, steps) && After(start, steps).reactor.Stopped?
    ensures var s := After(start, steps);
      && s.work == [] && s.drained == []
      && (forall w | 0 <= w < |s.workers| :: s.workers[w].Exited?)
      && (id in s.items && Closings(s.log, id) == 0 <==> id in s.completion)
  {
    InitHolds(start);
    RunKeepsInv(start, steps);
    var s := After(start, steps);
    assert s.workers[0].Exited?;
    NoHolders(s.workers, id);
    assert Places(s, id) == if id in s.items then 1 else 0;
    assert id in s.items ==> ItemOk(s, id);
    OccursIn(s.completion, id);
    OccursIn(s.done, id);
  }
}
