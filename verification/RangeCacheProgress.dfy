/** Progress of the range cache with the lock: calls that do not fail all return, whatever order they take their steps in,
    and however many of them share a bitmap file. */
module RangeCacheProgress {
  import opened BlockMath
  import opened Files
  import opened RangeCache
  import opened RangeCacheProofs
  import opened RangeCacheRuns
  import opened Sums

  predicate Returned(p: Phase) {
    p.Ready? || p.Reading? || p.Served? || p.Failed?
  }

  /** A step of a call that has started and not returned; none fails, and a merge writes its whole buffer. */
  predicate Internal(s: State, step: Step)
    requires Enabled(false, s, step)
  {
    match step
    case Start(_, _) => false
    case StartReading(_) => false
    case ReadChunk(_, _) => false
    case ReadWhole(_, _) => false
    case Fail(_) => false
    case RemoveBitmap => false
    case MergeWrite(c, put) => put == |s.calls[c].phase.buffer|
    case _ => true
  }

  ghost predicate Goes(s: State, step: Step) {
    Enabled(true, s, step) && Enabled(false, s, step) && Internal(s, step)
  }

  ghost predicate AllInternal(s: State, steps: seq<Step>)
    requires Legal(true, s, steps)
    decreases |steps|
  {
    steps == [] || (Internal(s, steps[0]) && AllInternal(Apply(s, steps[0]), steps[1..]))
  }

  /** Steps that a call has left, at most; its span may be fetched byte by byte. */
  function Left(size: nat, call: Call): nat {
    var r, p := call.request, call.phase;
    if r.length == 0 then 0
    else
      var start, end := BlockStart(r.FirstBlock()), BlockEnd(r.LastBlock(), size);
      var span := if start < end then end - start else 0;
      match p
      case Begin => 10 + span
      case Check(_) => 9 + span
      case Miss(_) => 8 + span
      case Sizing(_) => 7 + span
      case LocalSized(_) => 6 + span
      case Sized(_) => 5 + span
      case Fetching(_, done) => 4 + if done < span then span - done else 0
      case Fetched(_) => 3
      case Merging(_) => 2
      case Merged(_, _, _) => 1
      case _ => 0
  }

  function LeftOf(s: State): map<nat, nat> {
    map c | c in s.calls :: Left(|s.origin|, s.calls[c])
  }

  ghost function Rank(s: State): nat {
    Sum(LeftOf(s))
  }

  lemma OneMoves(s: State, step: Step)
    requires Enabled(false, s, step) && Internal(s, step)
    ensures step.c in s.calls && step.c in Apply(s, step).calls
    ensures Apply(s, step).calls == s.calls[step.c := Apply(s, step).calls[step.c]]
    ensures Apply(s, step).origin == s.origin
    ensures !Returned(s.calls[step.c].phase)
    ensures Returned(Apply(s, step).calls[step.c].phase) ==> Apply(s, step).calls[step.c].phase.Ready?
  {
  }

  /** Where a call's own steps lead, for those that say little about bytes. */
  lemma PhaseMoves(s: State, step: Step)
    requires Enabled(false, s, step) && Internal(s, step) && !step.Fetch?
    ensures step.c in s.calls && step.c in Apply(s, step).calls && 0 < s.calls[step.c].request.length
    ensures var a, b := s.calls[step.c], Apply(s, step).calls[step.c];
      && b.request == a.request
      && match a.phase
         case Begin => b.phase.Check?
         case Check(_) => b.phase.Miss? || b.phase.Ready?
         case Miss(_) => b.phase.Sizing?
         case Sizing(_) => b.phase.LocalSized? || b.phase.Sized?
         case LocalSized(_) => b.phase.Sized?
         case Sized(_) => b.phase.Ready? || (b.phase.Fetching? && b.phase.done == 0)
         case Fetched(_) => b.phase.Merging?
         case Merging(_) => b.phase.Merged?
         case Merged(_, _, _) => b.phase.Ready?
         case _ => false
  {
  }

  lemma FetchLowers(s: State, step: Step)
    requires Enabled(false, s, step) && step.Fetch?
    ensures step.c in s.calls && step.c in Apply(s, step).calls
    ensures Left(|s.origin|, Apply(s, step).calls[step.c]) < Left(|s.origin|, s.calls[step.c])
  {
  }

  lemma OneLowers(s: State, step: Step)
    requires Enabled(false, s, step) && Internal(s, step)
    ensures step.c in s.calls && step.c in Apply(s, step).calls
    ensures Left(|s.origin|, Apply(s, step).calls[step.c]) < Left(|s.origin|, s.calls[step.c])
  {
    if step.Fetch? {
      FetchLowers(s, step);
    } else {
      PhaseMoves(s, step);
    }
  }

  lemma StepLowersRank(s: State, step: Step)
    requires Enabled(false, s, step) && Internal(s, step)
    ensures Rank(Apply(s, step)) < Rank(s)
  {
    OneMoves(s, step);
    OneLowers(s, step);
    var t := Apply(s, step);
    assert LeftOf(t) == LeftOf(s)[step.c := Left(|s.origin|, t.calls[step.c])];
    SumUpdate(LeftOf(s), step.c, Left(|s.origin|, t.calls[step.c]));
  }

  predicate AllReturned(s: State) {
    forall c | c in s.calls :: Returned(s.calls[c].phase)
  }

  lemma {:induction false} NewName(bitmaps: map<nat, Bytes>) returns (f: nat)
    ensures f !in bitmaps
  {
    f := 0;
    var seen: set<nat> := {};
    while f in bitmaps
      invariant seen <= bitmaps.Keys && forall g: nat :: g in seen <==> g < f
      decreases bitmaps.Keys - seen
    {
      seen, f := seen + {f}, f + 1;
    }
  }

  /** The owner of a lock can go on. */
  lemma OwnerCanGoOn(s: State, f: nat) returns (step: Step)
    requires LockInv(s) && f in s.owner
    ensures Goes(s, step)
  {
    assert OwnerOk(s, f);
    var c := s.owner[f];
    assert CallOk(s, s.calls[c]);
    var p := s.calls[c].phase;
    step :=
      if p.Sizing? then SizeLocal(c)
      else if p.LocalSized? then SizeBitmap(c)
      else if p.Sized? then Recheck(c, |s.bitmaps[f]|)
      else if p.Merging? then MergeRead(c, |s.bitmaps[f]|)
      else MergeWrite(c, |p.buffer|);
    RequestBlocks(s.calls[c].request, |s.origin|);
  }

  /** A call that works or waits without a lock can go on if nobody owns one. */
  lemma OtherCanGoOn(s: State, c: nat) returns (step: Step)
    requires LockInv(s) && s.owner == map[] && c in s.calls && !Returned(s.calls[c].phase)
    ensures Goes(s, step)
  {
    assert HoldOk(s, c) && CallOk(s, s.calls[c]);
    var newFile := NewName(s.bitmaps);
    step := match s.calls[c].phase
      case Begin => Open(c, newFile)
      case Check(_) => FastCheck(c, true)
      case Miss(_) => Lock(c)
      case Fetching(_, _) => Fetch(c, 1)
      case _ => Lock(c);
  }

  /** No deadlock: while a call has not returned, some call can go on. */
  lemma NeverStuck(s: State) returns (step: Step)
    requires LockInv(s) && !AllReturned(s)
    ensures Goes(s, step)
  {
    if s.owner != map[] {
      var f :| f in s.owner;
      step := OwnerCanGoOn(s, f);
    } else {
      var c :| c in s.calls && !Returned(s.calls[c].phase);
      step := OtherCanGoOn(s, c);
    }
  }

  /** Who had returned is as before; who has returned since has returned OK. */
  predicate Fares(was: Call, now: Call) {
    if Returned(was.phase) then now == was else Returned(now.phase) ==> now.phase.Ready?
  }

  /** A run of such steps is no longer than its rank. */
  lemma {:induction false} RunIsBounded(s: State, steps: seq<Step>)
    requires Legal(true, s, steps) && AllInternal(s, steps)
    ensures |steps| + Rank(After(true, s, steps)) <= Rank(s)
    decreases |steps|
  {
    if steps != [] {
      StepLowersRank(s, steps[0]);
      RunIsBounded(Apply(s, steps[0]), steps[1..]);
    }
  }

  ghost predicate AllFare(s: State, t: State) {
    s.calls.Keys == t.calls.Keys && forall c | c in s.calls :: Fares(s.calls[c], t.calls[c])
  }

  lemma StepFares(s: State, step: Step)
    requires Enabled(false, s, step) && Internal(s, step)
    ensures AllFare(s, Apply(s, step))
  {
    OneMoves(s, step);
  }

  lemma FareOn(s: State, t: State, u: State)
    requires AllFare(s, t) && AllFare(t, u)
    ensures AllFare(s, u)
  {
    forall c | c in s.calls
      ensures Fares(s.calls[c], u.calls[c])
    {
      assert Fares(s.calls[c], t.calls[c]) && Fares(t.calls[c], u.calls[c]);
    }
  }

  lemma {:induction false} RunFares(s: State, steps: seq<Step>)
    requires Legal(true, s, steps) && AllInternal(s, steps)
    ensures AllFare(s, After(true, s, steps))
    decreases |steps|
  {
    if steps != [] {
      StepFares(s, steps[0]);
      RunFares(Apply(s, steps[0]), steps[1..]);
      FareOn(s, Apply(s, steps[0]), After(true, s, steps));
    }
  }

  /** Every call returns: from every reachable state of the locked machine, a run of calls that do not fail is bounded, and
      when it cannot go on, no lock is held, and each call that had not returned before has returned OK. */
  lemma EveryCallReturns(start: State, before: seq<Step>, later: seq<Step>)
    requires Init(start) && Legal(true, start, before)
    requires var s := After(true, start, before); Legal(true, s, later) && AllInternal(s, later)
    ensures |later| <= Rank(After(true, start, before))
    ensures var s, t := After(true, start, before), After(true, After(true, start, before), later);
      (forall step :: !Goes(t, step)) ==>
        && t.owner == map[]
        && forall c | c in s.calls :: c in t.calls &&
             if Returned(s.calls[c].phase) then t.calls[c] == s.calls[c] else t.calls[c].phase.Ready?
  {
    LockedRun(start, before);
    var s := After(true, start, before);
    LockedRun(s, later);
    RunIsBounded(s, later);
    RunFares(s, later);
    var t := After(true, s, later);
    if forall step :: !Goes(t, step) {
      if !AllReturned(t) {
        var step := NeverStuck(t);
      }
      forall c | c in s.calls
        ensures c in t.calls && Fares(s.calls[c], t.calls[c]) && Returned(t.calls[c].phase)
      {
        assert c in t.calls.Keys;
      }
      if t.owner != map[] {
        var f :| f in t.owner;
        var step := OwnerCanGoOn(t, f);
      }
    }
  }

  /** And there is such a run. */
  lemma {:induction false} RunToReturn(s: State) returns (later: seq<Step>)
    requires LockInv(s)
    ensures Legal(true, s, later) && AllInternal(s, later) && AllReturned(After(true, s, later))
    decreases Rank(s)
  {
    if AllReturned(s) {
      later := [];
    } else {
      var step := NeverStuck(s);
      StepKeepsLockInv(s, step);
      StepLowersRank(s, step);
      var rest := RunToReturn(Apply(s, step));
      later := [step] + rest;
      assert later[1..] == rest;
    }
  }
}
