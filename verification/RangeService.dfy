/** The broker's ranged-fetch service from message to reply: the fetch pool running together with one range cache per
    served file. A worker's outcome is whatever its own call on the file's cache came to; other callers (consumers on
    the same node, other workers) use the caches at the same time. */
module RangeService {
  import opened Files
  import opened BlockMath
  import Pool = FetchPool
  import PoolProofs = FetchPoolProofs
  import PoolRuns = FetchPoolRuns
  import Cache = RangeCache
  import CacheProofs = RangeCacheProofs

  datatype State = State(pool: Pool.State, files: map<nat, Cache.State>)

  datatype Step =
    | PoolStep(step: Pool.Step)
    | CacheStep(path: nat, cacheStep: Cache.Step)

  predicate Init(s: State) {
    Pool.Init(s.pool) && forall path | path in s.files :: Cache.Init(s.files[path])
  }

  /** The message asks for a range that its file's origin has. */
  predicate Answerable(s: State, msg: Pool.Message) {
    msg.path in s.files && msg.request.InRange(|s.files[msg.path].origin|)
  }

  /** The bytes of the origin that a message asks for. */
  function Requested(s: State, msg: Pool.Message): Bytes
    requires Answerable(s, msg)
  {
    s.files[msg.path].origin[msg.request.offset..msg.request.End()]
  }

  /** What the call numbered id came to: the bytes that it read back, or a failure. */
  predicate CameTo(s: State, id: nat, msg: Pool.Message, outcome: Pool.Outcome) {
    && msg.path in s.files && id in s.files[msg.path].calls
    && var call := s.files[msg.path].calls[id];
    && call.request == msg.request
    && match outcome
       case Payload(bytes) => call.phase == Cache.Served(bytes)
       case Error(_) => call.phase == Cache.Failed
       case Pending => false
  }

  /** A worker reports what its own call, numbered like the item, came to. */
  predicate Justified(s: State, step: Pool.Step)
    requires Pool.Enabled(s.pool, step)
  {
    match step
    case Unpack(msg) => Answerable(s, msg)
    case Process(w, outcome) =>
      var id := s.pool.workers[w].id;
      CameTo(s, id, s.pool.items[id].msg, outcome)
    case _ => true
  }

  predicate Enabled(s: State, step: Step) {
    match step
    case PoolStep(p) => Pool.Enabled(s.pool, p) && Justified(s, p)
    case CacheStep(path, c) => path in s.files && Cache.Enabled(false, s.files[path], c)
  }

  function Apply(s: State, step: Step): State
    requires Enabled(s, step)
  {
    match step
    case PoolStep(p) => s.(pool := Pool.Apply(s.pool, p))
    case CacheStep(path, c) => s.(files := s.files[path := Cache.Apply(s.files[path], c)])
  }

  predicate Legal(s: State, steps: seq<Step>)
    decreases |steps|
  {
    steps == [] || (Enabled(s, steps[0]) && Legal(Apply(s, steps[0]), steps[1..]))
  }

  function After(s: State, steps: seq<Step>): State
    requires Legal(s, steps)
    decreases |steps|
  {
    if steps == [] then s else After(Apply(s, steps[0]), steps[1..])
  }

  /** A request that is not pending has been settled by its own call. */
  ghost predicate ItemOk(s: State, id: nat, item: Pool.Item) {
    && Answerable(s, item.msg)
    && (!item.outcome.Pending? ==> CameTo(s, id, item.msg, item.outcome))
    && (item.outcome.Payload? ==> item.outcome.bytes == Requested(s, item.msg))
  }

  ghost predicate EventOk(s: State, e: Pool.Event) {
    e.Sent? ==>
      && e.id in s.pool.items && Answerable(s, s.pool.items[e.id].msg)
      && e.bytes == Requested(s, s.pool.items[e.id].msg)
  }

  ghost predicate Inv(s: State) {
    && PoolProofs.Inv(s.pool)
    && (forall path | path in s.files :: CacheProofs.Inv(s.files[path]))
    && (s.pool.reactor.Unpacked? || s.pool.reactor.Detached? ==> Answerable(s, s.pool.reactor.msg))
    && (forall id | id in s.pool.items :: ItemOk(s, id, s.pool.items[id]))
    && (forall e | e in s.pool.log :: EventOk(s, e))
  }

  /** Origins never change. */
  ghost predicate SameOrigins(s: State, t: State) {
    s.files.Keys == t.files.Keys && forall path | path in s.files :: s.files[path].origin == t.files[path].origin
  }

  /** A call that was served or has failed stays as it is. */
  lemma SettledStays(s: Cache.State, step: Cache.Step, c: nat)
    requires Cache.Enabled(false, s, step) && c in s.calls && (s.calls[c].phase.Served? || s.calls[c].phase.Failed?)
    ensures c in Cache.Apply(s, step).calls && Cache.Apply(s, step).calls[c] == s.calls[c]
  {
  }

  lemma CacheStepKeepsItem(s: State, step: Step, id: nat)
    requires Enabled(s, step) && step.CacheStep? && id in s.pool.items && ItemOk(s, id, s.pool.items[id])
    requires SameOrigins(s, Apply(s, step))
    ensures ItemOk(Apply(s, step), id, s.pool.items[id])
  {
    var item := s.pool.items[id];
    if !item.outcome.Pending? && item.msg.path == step.path {
      SettledStays(s.files[step.path], step.cacheStep, id);
    }
  }

  lemma CacheStepKeepsInv(s: State, step: Step)
    requires Inv(s) && Enabled(s, step) && step.CacheStep?
    ensures Inv(Apply(s, step)) && SameOrigins(s, Apply(s, step))
  {
    CacheProofs.StepKeepsInv(s.files[step.path], step.cacheStep);
    CacheProofs.StepKeepsBytes(s.files[step.path], step.cacheStep);
    var t := Apply(s, step);
    assert SameOrigins(s, t);
    forall id | id in t.pool.items
      ensures ItemOk(t, id, t.pool.items[id])
    {
      CacheStepKeepsItem(s, step, id);
    }
    forall e | e in t.pool.log
      ensures EventOk(t, e)
    {
      assert EventOk(s, e);
    }
  }

  lemma ProcessedIsRequested(s: State, w: nat, bytes: Bytes)
    requires Inv(s) && Enabled(s, PoolStep(Pool.Process(w, Pool.Payload(bytes))))
    ensures var msg := s.pool.items[s.pool.workers[w].id].msg;
      Answerable(s, msg) && bytes == Requested(s, msg)
  {
    var id := s.pool.workers[w].id;
    var file := s.files[s.pool.items[id].msg.path];
    assert CacheProofs.CallOk(file, file.calls[id]);
  }

  lemma PoolStepKeepsItems(s: State, p: Pool.Step, id: nat)
    requires Inv(s) && Enabled(s, PoolStep(p)) && id in Pool.Apply(s.pool, p).items
    ensures ItemOk(s, id, Pool.Apply(s.pool, p).items[id])
  {
    PoolProofs.ItemProvenance(s.pool, p, id);
    assert id in s.pool.items ==> ItemOk(s, id, s.pool.items[id]);
    if p.Process? && p.outcome.Payload? {
      ProcessedIsRequested(s, p.w, p.outcome.bytes);
    }
  }

  lemma NewEventIsOk(s: State, p: Pool.Step, e: Pool.Event)
    requires Inv(s) && Enabled(s, PoolStep(p)) && e in Pool.Apply(s.pool, p).log && e !in s.pool.log
    ensures EventOk(s, e)
  {
    PoolProofs.NewEvents(s.pool, p, e);
    assert ItemOk(s, e.id, s.pool.items[e.id]);
  }

  /** Accepted messages are never altered, so what was sent stays right. */
  lemma EventOkStable(s: State, t: State, e: Pool.Event)
    requires EventOk(s, e) && s.files == t.files
    requires forall id | id in s.pool.items :: id in t.pool.items && t.pool.items[id].msg == s.pool.items[id].msg
    ensures EventOk(t, e)
  {
  }

  lemma PoolStepKeepsEvents(s: State, p: Pool.Step, e: Pool.Event)
    requires Inv(s) && Enabled(s, PoolStep(p)) && e in Pool.Apply(s.pool, p).log
    ensures EventOk(Apply(s, PoolStep(p)), e)
  {
    if e !in s.pool.log {
      NewEventIsOk(s, p, e);
    }
    assert EventOk(s, e);
    PoolProofs.MessagesStay(s.pool, p);
    EventOkStable(s, Apply(s, PoolStep(p)), e);
  }

  /** Where the message that the reactor has at hand comes from. */
  lemma MessageAtHand(s: Pool.State, p: Pool.Step)
    requires Pool.Enabled(s, p)
    ensures var r := Pool.Apply(s, p).reactor;
      (r.Unpacked? || r.Detached?) ==>
        (p.Unpack? && r.msg == p.msg) || ((s.reactor.Unpacked? || s.reactor.Detached?) && r.msg == s.reactor.msg)
  {
  }

  lemma PoolStepKeepsReactor(s: State, p: Pool.Step)
    requires s.pool.reactor.Unpacked? || s.pool.reactor.Detached? ==> Answerable(s, s.pool.reactor.msg)
    requires Enabled(s, PoolStep(p))
    ensures var t := Apply(s, PoolStep(p));
      t.pool.reactor.Unpacked? || t.pool.reactor.Detached? ==> Answerable(t, t.pool.reactor.msg)
  {
    MessageAtHand(s.pool, p);
  }

  lemma PoolStepKeepsInv(s: State, p: Pool.Step)
    requires Inv(s) && Enabled(s, PoolStep(p))
    ensures Inv(Apply(s, PoolStep(p)))
  {
    var t := Apply(s, PoolStep(p));
    PoolRuns.StepKeepsInv(s.pool, p);
    PoolStepKeepsReactor(s, p);
    forall id | id in t.pool.items
      ensures ItemOk(t, id, t.pool.items[id])
    {
      PoolStepKeepsItems(s, p, id);
    }
    forall e | e in t.pool.log
      ensures EventOk(t, e)
    {
      PoolStepKeepsEvents(s, p, e);
    }
  }

  lemma {:induction false} RunKeepsInv(s: State, steps: seq<Step>)
    requires Inv(s) && Legal(s, steps)
    ensures Inv(After(s, steps)) && SameOrigins(s, After(s, steps))
    decreases |steps|
  {
    if steps != [] {
      if steps[0].CacheStep? {
        CacheStepKeepsInv(s, steps[0]);
      } else {
        PoolStepKeepsInv(s, steps[0].step);
      }
      RunKeepsInv(Apply(s, steps[0]), steps[1..]);
    }
  }

  /** The pool's part of a run of the service is a run of the pool. */
  lemma {:induction false} PoolRun(s: State, steps: seq<Step>) returns (poolSteps: seq<Pool.Step>)
    requires Legal(s, steps)
    ensures Pool.Legal(s.pool, poolSteps) && Pool.After(s.pool, poolSteps) == After(s, steps).pool
    decreases |steps|
  {
    poolSteps := [];
    if steps != [] {
      poolSteps := PoolRun(Apply(s, steps[0]), steps[1..]);
      if steps[0].PoolStep? {
        assert ([steps[0].step] + poolSteps)[1..] == poolSteps;
        poolSteps := [steps[0].step] + poolSteps;
      }
    }
  }

  /** End to end: every data message that leaves the service carries exactly the origin's bytes of the range that was
      asked for, and goes to the requester that asked, for every interleaving, every pattern of short reads, every
      overlap of fetches and every failure on the way. */
  lemma EverySentPayloadIsTheRequestedRange(start: State, steps: seq<Step>, e: Pool.Event)
    requires Init(start) && Legal(start, steps)
    requires e in After(start, steps).pool.log && e.Sent?
    ensures var s := After(start, steps);
      && e.id in s.pool.items
      && var msg := s.pool.items[e.id].msg;
      && e.to == msg.from
      && msg.path in start.files && msg.request.InRange(|start.files[msg.path].origin|)
      && e.bytes == start.files[msg.path].origin[msg.request.offset..msg.request.End()]
  {
    PoolRuns.InitHolds(start.pool);
    RunKeepsInv(start, steps);
    var s := After(start, steps);
    assert EventOk(s, e) && PoolProofs.EventOk(s.pool, e);
  }

  /** And the other way round: every request that is done has been answered with what its own call came to. If the call was
      served, the range went to the requester, in one data message; if it failed, nothing did, and the stream was closed
      with the worker's error. */
  lemma DoneMeansAnsweredAsServed(start: State, steps: seq<Step>, id: nat)
    requires Init(start) && Legal(start, steps) && id in After(start, steps).pool.done
    ensures var s := After(start, steps);
      && id in s.pool.items
      && var item := s.pool.items[id];
      && item.msg.path in s.files && id in s.files[item.msg.path].calls
      && var call := s.files[item.msg.path].calls[id];
      && var r := item.msg.request;
      && call.request == r && item.msg.path in start.files && r.InRange(|start.files[item.msg.path].origin|)
      && match call.phase
         case Served(_) =>
           && Pool.Sent(id, item.msg.from, start.files[item.msg.path].origin[r.offset..r.End()]) in s.pool.log
           && Pool.Aborted(id) !in s.pool.log
         case Failed =>
           && item.outcome.Error? && Pool.Closed(id, item.msg.from, item.outcome.errno) in s.pool.log
           && forall e | e in s.pool.log && e.Sent? :: e.id != id
         case _ => false
  {
    PoolRuns.InitHolds(start.pool);
    RunKeepsInv(start, steps);
    var s := After(start, steps);
    var poolSteps := PoolRun(start, steps);
    PoolRuns.DoneIsConsumed(s.pool, id);
    PoolRuns.CloseTellsOutcome(start.pool, poolSteps, id);
    PoolRuns.DataIsSent(start.pool, poolSteps, id);
    assert ItemOk(s, id, s.pool.items[id]);
  }
}
