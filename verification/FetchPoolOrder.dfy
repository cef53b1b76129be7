/** The order in which the fetch pool handles requests: both queues are first in, first out. */
module FetchPoolOrder {
  import opened Files
  import opened FetchPool

  /** The requests that a run accepts, in order. */
  function Accepted(s: State, steps: seq<Step>): seq<nat>
    requires Legal(s, steps)
    decreases |steps|
  {
    if steps == [] then []
    else (if steps[0].Enqueue? then [steps[0].newId] else []) + Accepted(Apply(s, steps[0]), steps[1..])
  }

  /** The requests that workers take in hand along a run, in order. */
  function Taken(s: State, steps: seq<Step>): seq<nat>
    requires Legal(s, steps)
    decreases |steps|
  {
    if steps == [] then []
    else
      (if steps[0].Pop? && Apply(s, steps[0]).workers[steps[0].w].Busy? then [Apply(s, steps[0]).workers[steps[0].w].id]
       else [])
      + Taken(Apply(s, steps[0]), steps[1..])
  }

  /** The requests that workers hand over to the reactor along a run, in order. */
  function HandedOver(s: State, steps: seq<Step>): seq<nat>
    requires Legal(s, steps)
    decreases |steps|
  {
    if steps == [] then []
    else (if steps[0].Push? then [s.workers[steps[0].w].id] else []) + HandedOver(Apply(s, steps[0]), steps[1..])
  }

  lemma WorkMoves(s: State, step: Step)
    requires Enabled(s, step)
    ensures var t := Apply(s, step);
      var taken := if step.Pop? && t.workers[step.w].Busy? then [t.workers[step.w].id] else [];
      s.work + (if step.Enqueue? then [step.newId] else []) == taken + t.work
  {
    if step.Pop? {
      assert s.work == [s.work[0]] + s.work[1..];
    }
  }

  lemma Splice(a: seq<nat>, in1: seq<nat>, out1: seq<nat>, b: seq<nat>, in2: seq<nat>, out2: seq<nat>, c: seq<nat>)
    requires a + in1 == out1 + b && b + in2 == out2 + c
    ensures a + (in1 + in2) == (out1 + out2) + c
  {
    assert a + (in1 + in2) == (a + in1) + in2 == out1 + (b + in2) == (out1 + out2) + c;
  }

  /** Requests are taken in the order in which they were accepted: those taken and those still queued are, in this order,
      those that were queued at first and those accepted. */
  lemma {:induction false} TakenInOrder(s: State, steps: seq<Step>)
    requires Legal(s, steps)
    ensures s.work + Accepted(s, steps) == Taken(s, steps) + After(s, steps).work
    decreases |steps|
  {
    if steps != [] {
      var step, t := steps[0], Apply(s, steps[0]);
      WorkMoves(s, step);
      TakenInOrder(t, steps[1..]);
      Splice(s.work, if step.Enqueue? then [step.newId] else [],
             if step.Pop? && t.workers[step.w].Busy? then [t.workers[step.w].id] else [], t.work,
             Accepted(t, steps[1..]), Taken(t, steps[1..]), After(s, steps).work);
    }
  }

  /** The requests that are done or on their way to be, in order. */
  function Answering(s: State): seq<nat> {
    s.done + s.drained + s.completion
  }

  /** What each step does to the three queues. */
  lemma QueuesMove(s: State, step: Step)
    requires Enabled(s, step)
    ensures var t := Apply(s, step);
      && (step.Push? ==> t.done == s.done && t.drained == s.drained && t.completion == s.completion + [s.workers[step.w].id])
      && (step.Take? ==> t.done == s.done && t.drained == s.completion && t.completion == [])
      && (step.Answer? ==>
            t.done == s.done + [s.drained[0]] && t.drained == s.drained[1..] && t.completion == s.completion)
      && (!step.Push? && !step.Take? && !step.Answer? ==>
            t.done == s.done && t.drained == s.drained && t.completion == s.completion)
      && ((s.drained != [] ==> s.reactor.Answering?) ==> (t.drained != [] ==> t.reactor.Answering?))
  {
  }

  lemma AnsweringMoves(s: State, step: Step)
    requires Enabled(s, step) && (s.drained != [] ==> s.reactor.Answering?)
    ensures Answering(s) + (if step.Push? then [s.workers[step.w].id] else []) == Answering(Apply(s, step))
    ensures Apply(s, step).drained != [] ==> Apply(s, step).reactor.Answering?
  {
    QueuesMove(s, step);
    if step.Answer? {
      assert s.drained == [s.drained[0]] + s.drained[1..];
    }
  }

  lemma {:induction false} AnsweredFrom(s: State, steps: seq<Step>)
    requires Legal(s, steps) && (s.drained != [] ==> s.reactor.Answering?)
    ensures Answering(s) + HandedOver(s, steps) == Answering(After(s, steps))
    decreases |steps|
  {
    if steps != [] {
      AnsweringMoves(s, steps[0]);
      AnsweredFrom(Apply(s, steps[0]), steps[1..]);
    }
  }

  /** Requests are answered in the order in which workers handed them over: from the start, those handed over are, in this
      order, those done, those the reactor is answering, and those on the completion queue. */
  lemma AnsweredInOrder(start: State, steps: seq<Step>)
    requires Init(start) && Legal(start, steps)
    ensures var s := After(start, steps); HandedOver(start, steps) == s.done + s.drained + s.completion
  {
    AnsweredFrom(start, steps);
    assert Answering(start) == [];
  }
}
