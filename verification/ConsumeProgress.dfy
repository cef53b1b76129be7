/** Progress of dyad_consume: once the file is published, consumers that do not fail all return, whatever order they take
    their steps in. */
module ConsumeProgress {
  import opened Files
  import opened Consume
  import opened Sums

  /** Steps of consumers that have arrived and do not fail. */
  predicate Internal(step: Step) {
    !step.Publish? && !step.Arrive? && !step.Fail?
  }

  predicate AllInternal(steps: seq<Step>) {
    forall i | 0 <= i < |steps| :: Internal(steps[i])
  }

  /** Steps that a consumer has left, at most, when n bytes are to be stored. */
  function Left(p: Phase, n: nat): nat {
    match p
    case Begin => 8 + n
    case Opened => 7 + n
    case Locked => 6 + n
    case Awaiting => 5 + n
    case Requesting => 4 + n
    case Storing(written) => if written < n then 3 + n - written else 3
    case Stored => 2
    case Releasing => 1
    case ReturnedOk => 0
    case ReturnedError => 0
  }

  function LeftOf(s: State): map<nat, nat> {
    map c | c in s.consumers :: Left(s.consumers[c], |s.content|)
  }

  ghost function Rank(s: State): nat {
    Sum(LeftOf(s))
  }

  lemma OneMoves(s: State, step: Step)
    requires Enabled(s, step) && Internal(step)
    ensures step.c in s.consumers && step.c in Apply(s, step).consumers
    ensures Apply(s, step).consumers == s.consumers[step.c := Apply(s, step).consumers[step.c]]
    ensures Left(Apply(s, step).consumers[step.c], |s.content|) < Left(s.consumers[step.c], |s.content|)
    ensures Apply(s, step).content == s.content && Apply(s, step).published == s.published
    ensures !Apply(s, step).consumers[step.c].ReturnedError?
  {
  }

  lemma StepLowersRank(s: State, step: Step)
    requires Enabled(s, step) && Internal(step)
    ensures Rank(Apply(s, step)) < Rank(s)
  {
    OneMoves(s, step);
    var t := Apply(s, step);
    assert LeftOf(t) == LeftOf(s)[step.c := Left(t.consumers[step.c], |s.content|)];
    SumUpdate(LeftOf(s), step.c, Left(t.consumers[step.c], |s.content|));
  }

  predicate HasReturned(p: Phase) {
    p.ReturnedOk? || p.ReturnedError?
  }

  predicate AllReturned(s: State) {
    forall c | c in s.consumers :: HasReturned(s.consumers[c])
  }

  /** The owner of the lock can go on. */
  lemma OwnerCanGoOn(s: State) returns (step: Step)
    requires Inv(s) && s.published && s.owner.Some?
    ensures Internal(step) && Enabled(s, step)
  {
    var c := s.owner.value;
    assert ConsumerOk(s, c);
    step := match s.consumers[c]
      case Locked => TestSize(c)
      case Awaiting => Await(c)
      case Requesting => Request(c)
      case Storing(_) => Store(c, 1)
      case Stored => Close(c)
      case _ => Return(c);
  }

  /** No deadlock: while a consumer of a published file has not returned, some consumer can go on. */
  lemma NeverStuck(s: State) returns (step: Step)
    requires Inv(s) && s.published && !AllReturned(s)
    ensures Internal(step) && Enabled(s, step)
  {
    if s.owner.Some? {
      step := OwnerCanGoOn(s);
    } else {
      var c :| c in s.consumers && !HasReturned(s.consumers[c]);
      assert ConsumerOk(s, c);
      step := match s.consumers[c]
        case Begin => Open(c)
        case Opened => Lock(c)
        case _ => Return(c);
    }
  }

  /** A run of such steps is no longer than its rank, and makes nobody fail. */
  lemma {:induction false} RunIsBounded(s: State, steps: seq<Step>)
    requires Legal(s, steps) && AllInternal(steps)
    ensures |steps| + Rank(After(s, steps)) <= Rank(s)
    ensures After(s, steps).consumers.Keys == s.consumers.Keys && After(s, steps).published == s.published
    ensures forall c | c in s.consumers && After(s, steps).consumers[c].ReturnedError? :: s.consumers[c].ReturnedError?
    decreases |steps|
  {
    if steps != [] {
      OneMoves(s, steps[0]);
      StepLowersRank(s, steps[0]);
      RunIsBounded(Apply(s, steps[0]), steps[1..]);
    }
  }

  /** Everyone that arrived returns: from every reachable state with the file published, a run of consumers that do not
      fail is bounded, and when it cannot go on, each of them has returned OK, or had failed before. */
  lemma EveryConsumerReturns(start: State, before: seq<Step>, later: seq<Step>)
    requires Init(start) && Legal(start, before) && After(start, before).published
    requires Legal(After(start, before), later) && AllInternal(later)
    ensures |later| <= Rank(After(start, before))
    ensures var s, t := After(start, before), After(After(start, before), later);
      (forall step | Internal(step) :: !Enabled(t, step)) ==>
        && t.owner == None
        && forall c | c in s.consumers :: c in t.consumers &&
             (t.consumers[c] == ReturnedOk || (s.consumers[c] == ReturnedError && t.consumers[c] == ReturnedError))
  {
    RunKeepsInv(start, before);
    var s := After(start, before);
    RunKeepsInv(s, later);
    RunIsBounded(s, later);
    var t := After(s, later);
    if forall step | Internal(step) :: !Enabled(t, step) {
      if !AllReturned(t) {
        var step := NeverStuck(t);
      }
      if t.owner.Some? {
        var step := OwnerCanGoOn(t);
      }
    }
  }

  /** And there is such a run. */
  lemma {:induction false} RunToReturn(s: State) returns (later: seq<Step>)
    requires Inv(s) && s.published
    ensures Legal(s, later) && AllInternal(later) && AllReturned(After(s, later))
    decreases Rank(s)
  {
    if AllReturned(s) {
      later := [];
    } else {
      var step := NeverStuck(s);
      StepKeepsInv(s, step);
      StepLowersRank(s, step);
      OneMoves(s, step);
      var rest := RunToReturn(Apply(s, step));
      later := [step] + rest;
      assert later[1..] == rest;
    }
  }
}
