/** The fetch worker pool of the broker module as a step machine: the reactor thread that accepts requests and
    finishes them, any fixed number of worker threads, the work queue, the completion queue with its wakeup pipe, and
    the transport's single slot out of which each request's reply state is detached. Queues are the sequences that
    the linked lists of WorkQueue refine; every critical section is one atomic step. */
module FetchPool {
  import opened Files
  import opened BlockMath

  /** A request message, as the reactor receives it. */
  datatype Message = Message(from: nat, path: nat, request: Request)

  /** What a worker found out about an item. */
  datatype Outcome = Pending | Payload(bytes: Bytes) | Error(errno: nat)

  const ECOMM: nat := 70
  const ENODATA: nat := 61

  /** A work item. `replyTo` is the detached request state: where the data is to be sent, until it is consumed. What the
      worker found stays; a send from the worker that fails makes the item an error nevertheless. */
  datatype Item = Item(msg: Message, replyTo: Option<nat>, outcome: Outcome, sendFailed: bool)

  datatype Worker =
    | Idle                 // about to look at the work queue
    | Asleep               // waiting on the work condition
    | Busy(id: nat)        // blocking file I/O
    | Finishing(id: nat)   // outcome known, thread-safe send or abort to do
    | Handing(id: nat)     // about to push on the completion queue
    | Notifying            // pushed, wakeup byte not yet written
    | Exited

  datatype Reactor =
    | Waiting                              // in the event loop
    | Unpacked(msg: Message)               // in the request callback, slot set
    | Detached(msg: Message, to: nat)      // in the request callback, slot moved out
    | Draining                             // in the completion callback, emptying the pipe
    | Taking                               // pipe seen empty, completion queue to be taken
    | Answering                            // finishing the drained items one by one
    | Joining                              // pool stop: shutdown set, joining workers
    | Stopped

  /** What leaves the module. */
  datatype Event =
    | Sent(id: nat, to: nat, bytes: Bytes)
    | Aborted(id: nat)
    | Closed(id: nat, to: nat, errno: nat)

  datatype State = State(
    safe: bool,              // the backend may send from a worker thread
    capacity: nat,           // of the wakeup pipe, in bytes
    items: map<nat, Item>,   // every accepted request
    work: seq<nat>,
    workers: seq<Worker>,
    completion: seq<nat>,
    pipe: nat,
    drained: seq<nat>,
    done: seq<nat>,
    slot: Option<nat>,
    reactor: Reactor,
    shutdown: bool,
    log: seq<Event>)
  {
    function SetWorker(w: nat, worker: Worker): State
      requires w < |workers|
    {
      this.(workers := workers[w := worker])
    }

    function SetItem(id: nat, item: Item): State {
      this.(items := items[id := item])
    }
  }

  datatype Step =
    // reactor: request callback
    | Unpack(msg: Message)
    | Refuse
    | Detach
    | Enqueue(newId: nat, signalled: Option<nat>)
    | OtherCallback(newSlot: Option<nat>)
    // workers
    | Sleep(w: nat)
    | SpuriousWakeup(w: nat)
    | Pop(w: nat)
    | Process(w: nat, outcome: Outcome)
    | SendFromWorker(w: nat, sendOk: bool)
    | LeaveToReactor(w: nat)
    | Push(w: nat)
    | Notify(w: nat)
    | Exit(w: nat)
    // reactor: completion callback
    | Wake
    | Drain(count: nat)
    | DrainEnd
    | Take
    | Answer
    | AnswerEnd
    // pool stop
    | Stop
    | Join

  predicate Init(s: State) {
    && 0 < s.capacity && 0 < |s.workers| && (forall w | 0 <= w < |s.workers| :: s.workers[w] == Idle)
    && s.items == map[] && s.work == [] && s.completion == [] && s.drained == [] && s.done == [] && s.pipe == 0
    && s.reactor == Waiting && !s.shutdown && s.log == []
  }

  predicate Enabled(s: State, step: Step) {
    match step
    case Unpack(_) => s.reactor.Waiting?
    case Refuse => s.reactor.Unpacked? || s.reactor.Detached?
    case Detach => s.reactor.Unpacked? && s.slot.Some?
    // the signal wakes a worker that waits, if there is one
    case Enqueue(newId, signalled) =>
      s.reactor.Detached? && newId !in s.items &&
      if signalled.Some? then signalled.value < |s.workers| && s.workers[signalled.value].Asleep?
      else forall w | 0 <= w < |s.workers| :: !s.workers[w].Asleep?
    case OtherCallback(_) => s.reactor.Waiting?
    case Sleep(w) => w < |s.workers| && s.workers[w].Idle? && s.work == [] && !s.shutdown
    case SpuriousWakeup(w) => w < |s.workers| && s.workers[w].Asleep?
    case Pop(w) => w < |s.workers| && s.workers[w].Idle? && s.work != []
    case Process(w, outcome) =>
      w < |s.workers| && s.workers[w].Busy? && s.workers[w].id in s.items && !outcome.Pending?
    case SendFromWorker(w, _) =>
      w < |s.workers| && s.workers[w].Finishing? && s.safe &&
      s.workers[w].id in s.items && s.items[s.workers[w].id].replyTo.Some?
    case LeaveToReactor(w) => w < |s.workers| && s.workers[w].Finishing? && !s.safe
    case Push(w) => w < |s.workers| && s.workers[w].Handing?
    case Notify(w) => w < |s.workers| && s.workers[w].Notifying?
    case Exit(w) => w < |s.workers| && s.workers[w].Idle? && s.work == [] && s.shutdown
    case Wake => s.reactor.Waiting? && 0 < s.pipe
    case Drain(count) => s.reactor.Draining? && 0 < count <= 256 && count <= s.pipe
    case DrainEnd => s.reactor.Draining? && s.pipe == 0
    case Take => s.reactor.Taking?
    case Answer => s.reactor.Answering? && s.drained != [] && s.drained[0] in s.items
    case AnswerEnd => s.reactor.Answering? && s.drained == []
    case Stop => s.reactor.Waiting?
    case Join => s.reactor.Joining? && forall w | 0 <= w < |s.workers| :: s.workers[w].Exited?
  }

  function AllWoken(workers: seq<Worker>): (woken: seq<Worker>)
    ensures |woken| == |workers|
    ensures forall w | 0 <= w < |workers| :: woken[w] == if workers[w].Asleep? then Idle else workers[w]
  {
    if workers == [] then []
    else [if workers[0].Asleep? then Idle else workers[0]] + AllWoken(workers[1..])
  }

  /** The data message or the abort that consumes an item's detached state. */
  function Consume(id: nat, item: Item): Event
    requires item.replyTo.Some?
  {
    if item.outcome.Payload? then Sent(id, item.replyTo.value, item.outcome.bytes) else Aborted(id)
  }

  /** The error number that closes a stream: that of the item, or the one that means the end of the stream. */
  function CloseErrno(item: Item): nat {
    if item.sendFailed then ECOMM else if item.outcome.Error? then item.outcome.errno else ENODATA
  }

  /** What the completion callback emits for one item: the pending send or abort, if any, then the close. */
  function Answers(id: nat, item: Item): seq<Event> {
    (if item.replyTo.Some? then [Consume(id, item)] else []) + [Closed(id, item.msg.from, CloseErrno(item))]
  }

  function Apply(s: State, step: Step): State
    requires Enabled(s, step)
  {
    match step
    case Unpack(msg) => s.(reactor := Unpacked(msg), slot := Some(msg.from))
    // an error before the hand-over answers the request at once and leaves the slot as it is
    case Refuse => s.(reactor := Waiting)
    case Detach => s.(reactor := Detached(s.reactor.msg, s.slot.value), slot := None)
    case Enqueue(newId, signalled) =>
      s.SetItem(newId, Item(s.reactor.msg, Some(s.reactor.to), Pending, false))
      .(work := s.work + [newId], reactor := Waiting,
        workers := if signalled.Some? then s.workers[signalled.value := Idle] else s.workers)
    case OtherCallback(newSlot) => s.(slot := newSlot)
    case Sleep(w) => s.SetWorker(w, Asleep)
    case SpuriousWakeup(w) => s.SetWorker(w, Idle)
    case Pop(w) => s.(work := s.work[1..]).SetWorker(w, Busy(s.work[0]))
    case Process(w, outcome) =>
      var id := s.workers[w].id;
      s.SetItem(id, s.items[id].(outcome := outcome)).SetWorker(w, Finishing(id))
    case SendFromWorker(w, sendOk) =>
      var id := s.workers[w].id;
      var item := s.items[id];
      s.SetItem(id, item.(replyTo := None, sendFailed := item.outcome.Payload? && !sendOk))
      .(log := s.log + [Consume(id, item)]).SetWorker(w, Handing(id))
    case LeaveToReactor(w) => s.SetWorker(w, Handing(s.workers[w].id))
    case Push(w) => s.(completion := s.completion + [s.workers[w].id]).SetWorker(w, Notifying)
    // a full pipe refuses the byte
    case Notify(w) => s.(pipe := if s.pipe < s.capacity then s.pipe + 1 else s.pipe).SetWorker(w, Idle)
    case Exit(w) => s.SetWorker(w, Exited)
    case Wake => s.(reactor := Draining)
    case Drain(count) => s.(pipe := s.pipe - count)
    case DrainEnd => s.(reactor := Taking)
    case Take => s.(reactor := Answering, drained := s.completion, completion := [])
    case Answer =>
      var id := s.drained[0];
      var item := s.items[id];
      s.SetItem(id, item.(replyTo := None))
      .(log := s.log + Answers(id, item), drained := s.drained[1..], done := s.done + [id])
    case AnswerEnd => s.(reactor := Waiting)
    // the broadcast wakes every worker that waits
    case Stop => s.(reactor := Joining, shutdown := true, workers := AllWoken(s.workers))
    case Join => s.(reactor := Stopped)
  }

  predicate Legal(s: State, steps: seq<Step>)
    decreases |steps|
  {
    steps == [] || (Enabled(s, steps[0]) && Legal(Apply(s, steps[0]), steps[1..]))
  }

  function After(s: State, steps: seq<Step>): State
    requires Legal(s, steps)
    decreases |steps|
  {
    if steps == [] then s else After(Apply(s, steps[0]), steps[1..])
  }
}
