/** dyad_consume on one file of one node, with node-local storage, a producer on another node, file locks in use and
    eviction off: many consumers (processes) race for the file, the first to hold its lock while it is empty waits for
    the publication, fetches the content and stores it piece by piece; the others find it there. Stores do not fail;
    every other operation may. */
module Consume {
  import opened Files

  datatype Phase =
    | Begin
    | Opened                      // file opened (and created if need be), waiting for the lock
    | Locked                      // lock granted, size test to do
    | Awaiting                    // file was empty: waiting for the metadata
    | Requesting                  // metadata there, remote fetch to do
    | Storing(written: nat)       // content received, `written` bytes of it stored
    | Stored                      // everything stored, descriptors to be closed
    | Releasing                   // about to release the lock and return OK
    | ReturnedOk
    | ReturnedError

  type Count = n: nat | 0 < n witness 1

  /** Where the producer and the consumers are: `mux` consecutive broker ranks share a node. */
  datatype Site = Site(owner: nat, mux: Count, node: nat)
  {
    /** dyad_fetch_metadata's test: no transfer for a file of the same node. */
    predicate Local() {
      owner / mux == node
    }
  }

  datatype State = State(
    site: Site,
    content: Bytes,              // what the producer publishes
    published: bool,
    local: Bytes,                // the file in the consumer-managed directory
    owner: Option<nat>,          // holder of its exclusive lock
    consumers: map<nat, Phase>,
    fetches: nat)                // remote fetches that delivered the content
  {
    function To(c: nat, phase: Phase): State {
      this.(consumers := consumers[c := phase])
    }

    function Unlocked(c: nat): State {
      this.(owner := if owner == Some(c) then None else owner)
    }
  }

  datatype Step =
    | Publish
    | Arrive(c: nat)
    | Open(c: nat)
    | Lock(c: nat)
    | TestSize(c: nat)
    | Await(c: nat)
    | Request(c: nat)
    | Store(c: nat, count: nat)
    | Close(c: nat)
    | Return(c: nat)
    | Fail(c: nat)

  predicate Init(s: State) {
    !s.site.Local() && !s.published && s.local == [] && s.owner == None && s.consumers == map[] && s.fetches == 0
  }

  predicate At(s: State, c: nat, phase: Phase) {
    c in s.consumers && s.consumers[c] == phase
  }

  predicate Enabled(s: State, step: Step) {
    match step
    case Publish => true
    case Arrive(c) => c !in s.consumers
    case Open(c) => At(s, c, Begin)
    case Lock(c) => At(s, c, Opened) && s.owner == None
    case TestSize(c) => At(s, c, Locked)
    case Await(c) => At(s, c, Awaiting) && s.published
    case Request(c) => At(s, c, Requesting)
    case Store(c, count) =>
      c in s.consumers && s.consumers[c].Storing? && 0 < count && s.consumers[c].written + count <= |s.content|
    case Close(c) => At(s, c, Stored)
    case Return(c) => At(s, c, Releasing)
    // anything before the store may fail; the lock, if held, is released on the way out
    case Fail(c) =>
      c in s.consumers && !s.consumers[c].Storing? && !s.consumers[c].Stored? && !s.consumers[c].Releasing?
      && !s.consumers[c].ReturnedOk?
  }

  function Apply(s: State, step: Step): State
    requires Enabled(s, step)
  {
    match step
    case Publish => s.(published := true)
    case Arrive(c) => s.To(c, Begin)
    case Open(c) => s.To(c, Opened)
    case Lock(c) => s.(owner := Some(c)).To(c, Locked)
    case TestSize(c) => s.To(c, if s.local == [] then Awaiting else Releasing)
    case Await(c) => s.To(c, if s.site.Local() then Releasing else Requesting)
    case Request(c) => s.(fetches := s.fetches + 1).To(c, if s.content == [] then Stored else Storing(0))
    case Store(c, count) =>
      var at := s.consumers[c].written;
      s.(local := WriteAt(s.local, at, s.content[at..at + count]))
      .To(c, if at + count == |s.content| then Stored else Storing(at + count))
    // closing the second descriptor of the file drops the process's lock already
    case Close(c) => s.Unlocked(c).To(c, Releasing)
    case Return(c) => s.Unlocked(c).To(c, ReturnedOk)
    case Fail(c) => s.Unlocked(c).To(c, ReturnedError)
  }

  predicate Legal(s: State, steps: seq<Step>)
    decreases |steps|
  {
    steps == [] || (Enabled(s, steps[0]) && Legal(Apply(s, steps[0]), steps[1..]))
  }

  function After(s: State, steps: seq<Step>): State
    requires Legal(s, steps)
    decreases |steps|
  {
    if steps == [] then s else After(Apply(s, steps[0]), steps[1..])
  }

  /** From the lock to the close of the descriptors. */
  predicate InsideLock(p: Phase) {
    p.Locked? || p.Awaiting? || p.Requesting? || p.Storing? || p.Stored?
  }

  /** Only someone between taking the lock and giving it up owns it. */
  predicate OwnerOk(s: State) {
    s.owner.Some? ==>
      && s.owner.value in s.consumers
      && (InsideLock(s.consumers[s.owner.value]) || s.consumers[s.owner.value].Releasing?)
  }

  ghost predicate ConsumerOk(s: State, c: nat)
    requires c in s.consumers
  {
    var p := s.consumers[c];
    && (InsideLock(p) ==> s.owner == Some(c))
    && (p.Awaiting? || p.Requesting? ==> s.local == [])
    && (p.Requesting? || p.Storing? || p.Stored? ==> s.published)
    && (p.Storing? ==> p.written < |s.content| && s.local == s.content[..p.written])
    && (p.Stored? || p.Releasing? || p.ReturnedOk? ==> s.local == s.content && s.published)
  }

  /** Someone has received the content and is still storing it. */
  ghost predicate StoreUnderWay(s: State) {
    s.owner.Some? && s.owner.value in s.consumers &&
    (s.consumers[s.owner.value].Storing? || s.consumers[s.owner.value].Stored?)
  }

  ghost predicate Inv(s: State) {
    && !s.site.Local()
    && OwnerOk(s)
    && (forall c | c in s.consumers :: ConsumerOk(s, c))
    && (s.local == [] || s.local == s.content || StoreUnderWay(s))
    && (s.local != [] ==> s.published)
    && (s.local == [] && s.content != [] && !StoreUnderWay(s) ==> s.fetches == 0)
    && (s.content != [] ==> s.fetches <= 1)
  }

  /** Writing the next piece of a text behind what is there of it. */
  lemma WriteExtends(file: Bytes, text: Bytes, at: nat, count: nat)
    requires at + count <= |text| && file == text[..at]
    ensures WriteAt(file, at, text[at..at + count]) == text[..at + count]
  {
    assert text[..at + count] == text[..at] + text[at..at + count];
  }

  lemma StoreExtends(s: State, c: nat, count: nat)
    requires Inv(s) && Enabled(s, Store(c, count))
    ensures Apply(s, Store(c, count)).local == s.content[..s.consumers[c].written + count]
  {
    assert ConsumerOk(s, c);
    WriteExtends(s.local, s.content, s.consumers[c].written, count);
  }

  lemma StoreKeepsConsumer(s: State, c: nat, count: nat)
    requires Inv(s) && Enabled(s, Store(c, count))
    ensures ConsumerOk(Apply(s, Store(c, count)), c)
  {
    assert ConsumerOk(s, c);
    StoreExtends(s, c, count);
    assert s.content[..|s.content|] == s.content;
  }

  lemma OtherStepKeepsConsumer(s: State, step: Step)
    requires Inv(s) && Enabled(s, step) && !step.Publish? && !step.Store?
    ensures step.c in Apply(s, step).consumers && ConsumerOk(Apply(s, step), step.c)
  {
    assert step.c in s.consumers ==> ConsumerOk(s, step.c);
  }

  lemma OwnStepKeepsConsumer(s: State, step: Step)
    requires Inv(s) && Enabled(s, step) && !step.Publish?
    ensures step.c in Apply(s, step).consumers && ConsumerOk(Apply(s, step), step.c)
  {
    if step.Store? {
      StoreKeepsConsumer(s, step.c, step.count);
    } else {
      OtherStepKeepsConsumer(s, step);
    }
  }

  lemma OthersKeepConsumer(s: State, step: Step, c: nat)
    requires Inv(s) && Enabled(s, step) && c in s.consumers && (step.Publish? || step.c != c)
    ensures c in Apply(s, step).consumers && ConsumerOk(Apply(s, step), c)
  {
    assert ConsumerOk(s, c);
    if step.Store? {
      assert ConsumerOk(s, step.c);
      assert s.local != s.content;
    }
  }

  lemma SiteStays(s: State, step: Step)
    requires Enabled(s, step)
    ensures Apply(s, step).site == s.site && Apply(s, step).content == s.content
  {
  }

  lemma Scaled(a: nat, b: nat, k: nat)
    requires a <= b
    ensures a * k <= b * k
  {
  }

  lemma Quotient(n: nat, k: Count)
    ensures n / k * k <= n < (n / k + 1) * k
  {
    assert n == n / k * k + n % k;
  }

  /** Which producers the test takes for local ones: those of the node's own block of ranks. */
  lemma LocalIff(site: Site)
    ensures site.Local() <==> site.node * site.mux <= site.owner < (site.node + 1) * site.mux
  {
    var q := site.owner / site.mux;
    Quotient(site.owner, site.mux);
    if q < site.node {
      Scaled(q + 1, site.node, site.mux);
    } else if q > site.node {
      Scaled(site.node + 1, q, site.mux);
    }
  }

  lemma StepKeepsFile(s: State, step: Step)
    requires Inv(s) && Enabled(s, step)
    ensures var t := Apply(s, step);
      && (t.local == [] || t.local == t.content || StoreUnderWay(t))
      && (t.local != [] ==> t.published)
      && (t.local == [] && t.content != [] && !StoreUnderWay(t) ==> t.fetches == 0)
      && (t.content != [] ==> t.fetches <= 1)
  {
    if !step.Publish? && step.c in s.consumers {
      assert ConsumerOk(s, step.c);
    }
    if step.Store? {
      StoreExtends(s, step.c, step.count);
    }
  }

  lemma StepKeepsOwner(s: State, step: Step)
    requires Inv(s) && Enabled(s, step)
    ensures OwnerOk(Apply(s, step))
  {
    if !step.Publish? && step.c in s.consumers {
      assert ConsumerOk(s, step.c);
    }
  }

  lemma StepKeepsInv(s: State, step: Step)
    requires Inv(s) && Enabled(s, step)
    ensures Inv(Apply(s, step)) && Apply(s, step).content == s.content && Apply(s, step).site == s.site
  {
    StepKeepsFile(s, step);
    StepKeepsOwner(s, step);
    SiteStays(s, step);
    forall c | c in Apply(s, step).consumers
      ensures ConsumerOk(Apply(s, step), c)
    {
      if step.Publish? || step.c != c {
        OthersKeepConsumer(s, step, c);
      } else {
        OwnStepKeepsConsumer(s, step);
      }
    }
  }

  lemma {:induction false} RunKeepsInv(s: State, steps: seq<Step>)
    requires Inv(s) && Legal(s, steps)
    ensures Inv(After(s, steps)) && After(s, steps).content == s.content
    decreases |steps|
  {
    if steps != [] {
      StepKeepsInv(s, steps[0]);
      RunKeepsInv(Apply(s, steps[0]), steps[1..]);
    }
  }

  /** Every consumer that returned OK leaves the local file equal to the published content, and it stays so. */
  lemma OkMeansPublishedContent(start: State, before: seq<Step>, later: seq<Step>, c: nat)
    requires Init(start) && Legal(start, before) && Legal(After(start, before), later)
    requires At(After(start, before), c, ReturnedOk)
    ensures After(After(start, before), later).local == start.content
    ensures After(start, before).published
  {
    RunKeepsInv(start, before);
    assert ConsumerOk(After(start, before), c);
    OkStays(After(start, before), later, c);
    RunKeepsInv(After(start, before), later);
    assert ConsumerOk(After(After(start, before), later), c);
  }

  lemma {:induction false} OkStays(s: State, steps: seq<Step>, c: nat)
    requires Legal(s, steps) && At(s, c, ReturnedOk)
    ensures At(After(s, steps), c, ReturnedOk)
    decreases |steps|
  {
    if steps != [] {
      OkStays(Apply(s, steps[0]), steps[1..], c);
    }
  }

  /** Nobody keeps the lock: in every reachable state its owner is between taking it and giving it up, so that a consumer
      that has returned, with or without success, does not own it. */
  lemma LockIsGivenBack(start: State, steps: seq<Step>)
    requires Init(start) && Legal(start, steps)
    ensures var s := After(start, steps);
      s.owner.Some? ==>
        && s.owner.value in s.consumers
        && var p := s.consumers[s.owner.value];
        && !p.Begin? && !p.Opened? && !p.ReturnedOk? && !p.ReturnedError?
  {
    RunKeepsInv(start, steps);
  }

  /** One that stored the content lets the next one at the lock when it closes the file, before it returns. */
  lemma CloseFreesLock(start: State, steps: seq<Step>, c: nat)
    requires Init(start) && Legal(start, steps) && Enabled(After(start, steps), Close(c))
    ensures After(start, steps).owner == Some(c) && Apply(After(start, steps), Close(c)).owner == None
  {
    RunKeepsInv(start, steps);
    assert ConsumerOk(After(start, steps), c);
  }

  /** A published file that is not empty is fetched at most once, however many consumers there are. */
  lemma FetchedAtMostOnce(start: State, steps: seq<Step>)
    requires Init(start) && Legal(start, steps) && start.content != []
    ensures After(start, steps).fetches <= 1
  {
    RunKeepsInv(start, steps);
  }

  lemma Chain(s: State, step: Step, rest: seq<Step>)
    requires Enabled(s, step) && Legal(Apply(s, step), rest)
    ensures Legal(s, [step] + rest) && After(s, [step] + rest) == After(Apply(s, step), rest)
  {
    assert ([step] + rest)[1..] == rest;
  }

  /** The steps of one consumer that finds the file empty, up to the wait and from there on. */
  function UpToWait(c: nat): seq<Step> {
    [Arrive(c), Open(c), Lock(c), TestSize(c)]
  }

  function FetchNothing(c: nat): seq<Step> {
    [Await(c), Request(c), Close(c), Return(c)]
  }

  lemma WaitOnEmpty(s: State, c: nat)
    requires s.local == [] && s.owner == None && c !in s.consumers
    ensures Legal(s, UpToWait(c)) && After(s, UpToWait(c)) == s.(owner := Some(c)).To(c, Awaiting)
  {
    var s1 := Apply(s, Arrive(c));
    var s2 := Apply(s1, Open(c));
    var s3 := Apply(s2, Lock(c));
    Chain(s3, TestSize(c), []);
    Chain(s2, Lock(c), [TestSize(c)]);
    Chain(s1, Open(c), [Lock(c), TestSize(c)]);
    Chain(s, Arrive(c), [Open(c), Lock(c), TestSize(c)]);
    assert Apply(s3, TestSize(c)) == s.(owner := Some(c)).To(c, Awaiting);
  }

  lemma EmptyContentArrives(s: State, c: nat)
    requires !s.site.Local() && s.content == [] && s.published && At(s, c, Awaiting)
    ensures Legal(s, [Await(c), Request(c)])
    ensures After(s, [Await(c), Request(c)]) == s.(fetches := s.fetches + 1).To(c, Stored)
  {
    var s1 := Apply(s, Await(c));
    Chain(s1, Request(c), []);
    Chain(s, Await(c), [Request(c)]);
    assert s.consumers[c := Requesting][c := Stored] == s.consumers[c := Stored];
  }

  lemma StoredReturns(s: State, c: nat)
    requires s.owner == Some(c) && At(s, c, Stored)
    ensures Legal(s, [Close(c), Return(c)])
    ensures After(s, [Close(c), Return(c)]) == s.(owner := None).To(c, ReturnedOk)
  {
    var s1 := Apply(s, Close(c));
    Chain(s1, Return(c), []);
    Chain(s, Close(c), [Return(c)]);
    assert s.consumers[c := Releasing][c := ReturnedOk] == s.consumers[c := ReturnedOk];
  }

  lemma FetchOfEmpty(s: State, c: nat)
    requires !s.site.Local() && s.content == [] && s.published && s.owner == Some(c) && At(s, c, Awaiting)
    ensures Legal(s, FetchNothing(c))
    ensures After(s, FetchNothing(c)) == s.(owner := None, fetches := s.fetches + 1).To(c, ReturnedOk)
  {
    EmptyContentArrives(s, c);
    StoredReturns(s.(fetches := s.fetches + 1).To(c, Stored), c);
    Concat(s, [Await(c), Request(c)], [Close(c), Return(c)]);
    assert s.consumers[c := Stored][c := ReturnedOk] == s.consumers[c := ReturnedOk];
  }

  function FullConsume(c: nat): seq<Step> {
    UpToWait(c) + FetchNothing(c)
  }

  lemma EmptyConsumeRefetches(s: State, c: nat)
    requires !s.site.Local() && s.content == [] && s.local == [] && s.published && s.owner == None && c !in s.consumers
    ensures Legal(s, FullConsume(c))
    ensures After(s, FullConsume(c)) == s.To(c, ReturnedOk).(fetches := s.fetches + 1)
  {
    WaitOnEmpty(s, c);
    FetchOfEmpty(s.(owner := Some(c)).To(c, Awaiting), c);
    Concat(s, UpToWait(c), FetchNothing(c));
  }

  /** The size test cannot tell an empty published file from a file that was not fetched yet: every consumer of an
      empty file fetches it again, so the number of fetches grows without bound. */
  lemma {:induction false} EmptyFileIsFetchedEveryTime(start: State, n: nat) returns (steps: seq<Step>)
    requires Init(start) && start.content == []
    ensures Legal(start, steps)
    ensures var s := After(start, steps);
      && s.fetches == n && s.site == start.site && s.content == [] && s.local == [] && s.published && s.owner == None
      && forall c | c in s.consumers :: c < n && s.consumers[c] == ReturnedOk
  {
    if n == 0 {
      steps := [Publish];
      Chain(start, Publish, []);
    } else {
      var before := EmptyFileIsFetchedEveryTime(start, n - 1);
      EmptyConsumeRefetches(After(start, before), n - 1);
      steps := before + FullConsume(n - 1);
      Concat(start, before, FullConsume(n - 1));
    }
  }

  lemma {:induction false} Concat(s: State, a: seq<Step>, b: seq<Step>)
    requires Legal(s, a) && Legal(After(s, a), b)
    ensures Legal(s, a + b) && After(s, a + b) == After(After(s, a), b)
    decreases |a|
  {
    if a == [] {
      assert a + b == b;
    } else {
      assert (a + b)[1..] == a[1..] + b;
      Concat(Apply(s, a[0]), a[1..], b);
    }
  }

  /** Exactly when the protocol fetches at most once on every run: when the published file is not empty. */
  lemma AtMostOneFetchIff(start: State)
    requires Init(start)
    ensures (forall steps | Legal(start, steps) :: After(start, steps).fetches <= 1) <==> start.content != []
  {
    if start.content == [] {
      var steps := EmptyFileIsFetchedEveryTime(start, 2);
      assert After(start, steps).fetches == 2;
    } else {
      forall steps | Legal(start, steps)
        ensures After(start, steps).fetches <= 1
      {
        FetchedAtMostOnce(start, steps);
      }
    }
  }

  // ---------------------------------------------------------------- producer and consumers on one node

  /** Nobody asks for a transfer, and who is through has met the file or its publication. */
  ghost predicate OneNodeInv(start: State, s: State) {
    && s.site == start.site && s.fetches == 0 && s.local == start.local
    && forall c | c in s.consumers ::
         var p := s.consumers[c];
         && !p.Requesting? && !p.Storing? && !p.Stored?
         && (p.Releasing? || p.ReturnedOk? ==> s.local != [] || s.published)
  }

  lemma OneNodeStep(start: State, s: State, step: Step)
    requires start.site.Local() && OneNodeInv(start, s) && Enabled(s, step)
    ensures OneNodeInv(start, Apply(s, step))
  {
  }

  lemma {:induction false} OneNodeRun(start: State, s: State, steps: seq<Step>)
    requires start.site.Local() && OneNodeInv(start, s) && Legal(s, steps)
    ensures OneNodeInv(start, After(s, steps))
    decreases |steps|
  {
    if steps != [] {
      OneNodeStep(start, s, steps[0]);
      OneNodeRun(start, Apply(s, steps[0]), steps[1..]);
    }
  }

  /** A file of the consumers' own node is never transferred: no fetch, no write to it, and OK only for a file that is
      there or published. */
  lemma OneNodeNeverFetches(start: State, steps: seq<Step>, c: nat)
    requires start.site.Local() && start.consumers == map[] && start.fetches == 0 && Legal(start, steps)
    ensures var s := After(start, steps);
      && s.fetches == 0 && s.local == start.local
      && (c in s.consumers && s.consumers[c] == ReturnedOk ==> s.local != [] || s.published)
  {
    OneNodeRun(start, start, steps);
  }
}
