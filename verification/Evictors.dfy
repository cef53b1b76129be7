/** Several processes evicting from one managed directory at once: each scans without the lock, waits for the directory
    lock, scans again, sorts, and evicts. A scan meets one file at a time and adds up what it meets, while others delete.
    Files are deleted by evictors only and none is added. */
module Evictors {
  import opened Files
  import opened Eviction
  import opened EvictionLoop

  datatype Info = Info(size: nat, atime: int, key: int)

  datatype Phase =
    | Begin
    | Scanning(listed: seq<Entry>, total: nat)       // first scan, no lock held
    | Waiting                                        // the first scan came to more than the capacity
    | Rescanning(listed: seq<Entry>, total: nat)     // second scan, directory lock held
    | Evicting(order: seq<Entry>, now: int, answers: seq<Answer>, log: seq<Decision>, total: nat)
    | Finished

  /** `atLock` is the actual usage when the evictor got the lock, `deletions` how many files it has deleted. */
  datatype Evictor = Evictor(phase: Phase, atLock: nat, deletions: nat)

  datatype State = State(
    born: map<string, Info>,     // the files at the start
    files: map<string, Info>,
    capacity: nat,
    low: nat,
    grace: nat,
    owner: Option<nat>,
    evictors: map<nat, Evictor>)
  {
    function To(c: nat, phase: Phase): State
      requires c in evictors
    {
      this.(evictors := evictors[c := evictors[c].(phase := phase)])
    }

    function Unlocked(c: nat): State {
      this.(owner := if owner == Some(c) then None else owner)
    }
  }

  function AsEntry(name: string, info: Info): Entry {
    Entry(name, info.size, info.atime, info.key)
  }

  /** Bytes that the files of the directory take. */
  ghost function Usage(files: map<string, Info>): nat
    decreases |files|
  {
    if files == map[] then 0
    else
      var name :| name in files;
      files[name].size + Usage(files - {name})
  }

  lemma {:induction false} UsageRemove(files: map<string, Info>, name: string)
    requires name in files
    ensures Usage(files) == files[name].size + Usage(files - {name})
    decreases |files|
  {
    var first :| first in files && Usage(files) == files[first].size + Usage(files - {first});
    if first != name {
      UsageRemove(files - {first}, name);
      UsageRemove(files - {name}, first);
      assert (files - {first}) - {name} == (files - {name}) - {first};
    }
  }

  // ---------------------------------------------------------------- what a scan adds up

  predicate Listed(listed: seq<Entry>, name: string) {
    exists i | 0 <= i < |listed| :: listed[i].name == name
  }

  predicate Distinct(listed: seq<Entry>) {
    forall i, j | 0 <= i < j < |listed| :: listed[i].name != listed[j].name
  }

  /** The entry describes a file of the directory. */
  predicate IsEntryOf(files: map<string, Info>, e: Entry) {
    && e.name in files && e.size == files[e.name].size && e.atime == files[e.name].atime
    && e.key == files[e.name].key
  }

  predicate AllEntriesOf(files: map<string, Info>, listed: seq<Entry>) {
    forall i | 0 <= i < |listed| :: IsEntryOf(files, listed[i])
  }

  /** Every file has been met. */
  ghost predicate AllListed(files: map<string, Info>, listed: seq<Entry>) {
    forall name {:trigger Listed(listed, name)} | name in files :: Listed(listed, name)
  }

  /** What was listed once each, and is there, takes no more than all files. */
  lemma {:induction false} ListedBound(files: map<string, Info>, listed: seq<Entry>)
    requires Distinct(listed) && AllEntriesOf(files, listed)
    ensures Total(listed) <= Usage(files)
    decreases |listed|
  {
    if listed != [] {
      var front, e := listed[..|listed| - 1], listed[|listed| - 1];
      assert IsEntryOf(files, e);
      forall i | 0 <= i < |front|
        ensures IsEntryOf(files - {e.name}, front[i])
      {
        assert IsEntryOf(files, listed[i]);
      }
      ListedBound(files - {e.name}, front);
      UsageRemove(files, e.name);
    }
  }

  /** What was listed takes no less than the files, if every file was listed as it is. */
  lemma {:induction false} ListedCovers(files: map<string, Info>, listed: seq<Entry>)
    requires AllListed(files, listed)
    requires forall i | 0 <= i < |listed| && listed[i].name in files :: IsEntryOf(files, listed[i])
    ensures Usage(files) <= Total(listed)
    decreases |listed|
  {
    if listed == [] {
      assert forall name | name in files :: Listed(listed, name);
      assert files == map[];
    } else {
      var front, e := listed[..|listed| - 1], listed[|listed| - 1];
      var rest := files - {e.name};
      forall name | name in rest
        ensures Listed(front, name)
      {
        assert Listed(listed, name);
        var i :| 0 <= i < |listed| && listed[i].name == name;
        assert front[i].name == name;
      }
      forall i | 0 <= i < |front| && front[i].name in rest
        ensures IsEntryOf(rest, front[i])
      {
        assert IsEntryOf(files, listed[i]);
      }
      ListedCovers(rest, front);
      if e.name in files {
        assert IsEntryOf(files, listed[|listed| - 1]);
        UsageRemove(files, e.name);
      } else {
        assert rest == files;
      }
    }
  }

  // ---------------------------------------------------------------- the machine

  datatype Step =
    | Arrive(c: nat)
    | OpenDir(c: nat)
    | List(c: nat, name: string)
    | FirstDone(c: nat)
    | Lock(c: nat)
    | RescanDone(c: nat, order: seq<Entry>, now: int)
    | Examine(c: nat, answer: Answer)
    | Finish(c: nat)
    | GiveUp(c: nat)

  ghost predicate Init(s: State) {
    s.files == s.born && Usage(s.born) < WORD && s.owner == None && s.evictors == map[]
  }

  ghost predicate Enabled(s: State, step: Step) {
    match step
    case Arrive(c) => c !in s.evictors
    case OpenDir(c) => c in s.evictors && s.evictors[c].phase.Begin?
    // readdir returns a name once; one whose file is gone by then fails stat and is passed over
    case List(c, name) =>
      c in s.evictors && (s.evictors[c].phase.Scanning? || s.evictors[c].phase.Rescanning?) &&
      name in s.files && !Listed(s.evictors[c].phase.listed, name)
    // a file that is there all the time is met before readdir comes to its end
    case FirstDone(c) =>
      c in s.evictors && s.evictors[c].phase.Scanning? && AllListed(s.files, s.evictors[c].phase.listed)
    case Lock(c) => c in s.evictors && s.evictors[c].phase.Waiting? && s.owner == None
    case RescanDone(c, order, _) =>
      c in s.evictors && s.evictors[c].phase.Rescanning? && AllListed(s.files, s.evictors[c].phase.listed) &&
      multiset(order) == multiset(s.evictors[c].phase.listed) && Sorted(order)
    case Examine(c, answer) =>
      c in s.evictors && s.evictors[c].phase.Evicting? &&
      var p := s.evictors[c].phase;
      |p.log| < |p.order| && p.total > s.low && (answer == Removed ==> p.order[|p.log|].name in s.files)
    case Finish(c) =>
      c in s.evictors && s.evictors[c].phase.Evicting? &&
      var p := s.evictors[c].phase;
      |p.log| == |p.order| || p.total <= s.low
    case GiveUp(c) =>
      c in s.evictors && !s.evictors[c].phase.Evicting? && !s.evictors[c].phase.Finished?
  }

  ghost function Apply(s: State, step: Step): State
    requires Enabled(s, step)
  {
    match step
    case Arrive(c) => s.(evictors := s.evictors[c := Evictor(Begin, 0, 0)])
    case OpenDir(c) => s.To(c, Scanning([], 0))
    case List(c, name) =>
      var p := s.evictors[c].phase;
      s.To(c, p.(listed := p.listed + [AsEntry(name, s.files[name])], total := Add64(p.total, s.files[name].size)))
    case FirstDone(c) => s.To(c, if s.evictors[c].phase.total <= s.capacity then Finished else Waiting)
    case Lock(c) =>
      s.(owner := Some(c), evictors := s.evictors[c := Evictor(Rescanning([], 0), Usage(s.files), 0)])
    case RescanDone(c, order, now) =>
      var total := s.evictors[c].phase.total;
      if total <= s.capacity then s.Unlocked(c).To(c, Finished) else s.To(c, Evicting(order, now, [], [], total))
    case Examine(c, answer) =>
      var Evictor(p, atLock, deletions) := s.evictors[c];
      var entry := p.order[|p.log|];
      var d := Decide(entry, p.now, s.grace, answer);
      var next := p.(answers := p.answers + [answer], log := p.log + [d]);
      if !d.Deleted? then s.To(c, next)
      else
        s.(files := s.files - {entry.name},
           evictors := s.evictors[c := Evictor(next.(total := Sub64(p.total, entry.size)), atLock, deletions + 1)])
    case Finish(c) => s.Unlocked(c).To(c, Finished)
    case GiveUp(c) => s.Unlocked(c).To(c, Finished)
  }

  ghost predicate Legal(s: State, steps: seq<Step>)
    decreases |steps|
  {
    steps == [] || (Enabled(s, steps[0]) && Legal(Apply(s, steps[0]), steps[1..]))
  }

  ghost function After(s: State, steps: seq<Step>): State
    requires Legal(s, steps)
    decreases |steps|
  {
    if steps == [] then s else After(Apply(s, steps[0]), steps[1..])
  }

  // ---------------------------------------------------------------- what every step keeps

  /** A scan has met different files of the start, and added up their sizes. */
  predicate ScanOk(born: map<string, Info>, listed: seq<Entry>, total: nat) {
    Distinct(listed) && AllEntriesOf(born, listed) && total == Total(listed)
  }

  /** The loop has made a part of its run, and its total is that run's. */
  ghost predicate RunOk(p: Phase, low: nat, grace: nat)
    requires p.Evicting?
  {
    && Total(p.order) < WORD && Sorted(p.order) && |p.answers| == |p.log| <= |p.order|
    && IsRunSoFar(p.order, Total(p.order), low, p.now, grace, p.answers, p.log)
    && p.total == Tracked(Total(p.order), p.order, p.log)
  }

  /** The files that the loop has not examined are there, the deleted ones are not, and there is none that it does not
      know of. */
  ghost predicate PlacesOk(born: map<string, Info>, files: map<string, Info>, order: seq<Entry>, log: seq<Decision>) {
    && Distinct(order) && AllEntriesOf(born, order) && AllListed(files, order)
    && (forall i | |log| <= i < |order| :: IsEntryOf(files, order[i]))
    && (forall i | 0 <= i < |log| && i < |order| && log[i].Deleted? :: order[i].name !in files)
  }

  /** Only one that is scanning again or in its loop owns the directory lock. */
  predicate OwnerOk(s: State) {
    s.owner.Some? ==>
      && s.owner.value in s.evictors
      && (s.evictors[s.owner.value].phase.Rescanning? || s.evictors[s.owner.value].phase.Evicting?)
  }

  ghost predicate EvictorOk(s: State, c: nat)
    requires c in s.evictors
  {
    var e := s.evictors[c];
    && (e.phase.Rescanning? || e.phase.Evicting? ==> s.owner == Some(c))
    && (e.phase.Scanning? ==> ScanOk(s.born, e.phase.listed, e.phase.total))
    // nothing moves while the second scan is under way
    && (e.phase.Rescanning? ==>
          ScanOk(s.files, e.phase.listed, e.phase.total) && e.atLock == Usage(s.files))
    && (e.phase.Evicting? ==>
          && PlacesOk(s.born, s.files, e.phase.order, e.phase.log) && |e.phase.log| <= |e.phase.order|
          && e.phase.total == Usage(s.files) && e.atLock == Total(e.phase.order) > s.capacity)
    && (e.phase.Begin? || e.phase.Scanning? || e.phase.Waiting? || e.phase.Rescanning? ==> e.deletions == 0)
    && (e.deletions > 0 ==> e.atLock > s.capacity)
  }

  ghost predicate FilesOk(s: State) {
    && Usage(s.born) < WORD && Usage(s.files) < WORD
    && forall name | name in s.files :: name in s.born && s.files[name] == s.born[name]
  }

  ghost predicate LoopOk(s: State, c: nat)
    requires c in s.evictors
  {
    s.evictors[c].phase.Evicting? ==> RunOk(s.evictors[c].phase, s.low, s.grace)
  }

  ghost predicate Inv(s: State) {
    && FilesOk(s) && OwnerOk(s)
    && (forall c | c in s.evictors :: EvictorOk(s, c))
    && (forall c | c in s.evictors :: LoopOk(s, c))
  }

  /** One more file met. */
  lemma ScanExtends(files: map<string, Info>, listed: seq<Entry>, total: nat, name: string)
    requires ScanOk(files, listed, total) && name in files && !Listed(listed, name) && Usage(files) < WORD
    ensures ScanOk(files, listed + [AsEntry(name, files[name])], Add64(total, files[name].size))
  {
    var e := AsEntry(name, files[name]);
    var more := listed + [e];
    forall i | 0 <= i < |more|
      ensures IsEntryOf(files, more[i])
    {
      assert i < |listed| ==> IsEntryOf(files, listed[i]);
    }
    ListedBound(files, more);
    TotalAppend(listed, e);
  }

  lemma ListKeeps(s: State, step: Step)
    requires Inv(s) && Enabled(s, step) && step.List?
    ensures EvictorOk(Apply(s, step), step.c)
  {
    assert EvictorOk(s, step.c);
    var p := s.evictors[step.c].phase;
    ScanExtends(if p.Scanning? then s.born else s.files, p.listed, p.total, step.name);
  }

  /** Sorting keeps what the scan has found. */
  lemma SortKeepsListing(files: map<string, Info>, listed: seq<Entry>, order: seq<Entry>)
    requires Distinct(listed) && AllEntriesOf(files, listed) && multiset(order) == multiset(listed)
    ensures Distinct(order) && AllEntriesOf(files, order) && Total(order) == Total(listed)
    ensures AllListed(files, listed) ==> AllListed(files, order)
  {
    SameTotal(order, listed);
    forall name | Listed(listed, name)
      ensures Listed(order, name)
    {
      var i :| 0 <= i < |listed| && listed[i].name == name;
      assert listed[i] in multiset(order);
      assert listed[i] in order;
    }
    forall i | 0 <= i < |order|
      ensures IsEntryOf(files, order[i])
    {
      assert order[i] in multiset(order);
      assert order[i] in listed;
    }
    forall i, j | 0 <= i < j < |order|
      ensures order[i].name != order[j].name
    {
      if order[i].name == order[j].name {
        assert IsEntryOf(files, order[i]) && IsEntryOf(files, order[j]);
        TwoOccurrences(order, i, j);
        OneOccurrence(listed, order[i]);
      }
    }
  }

  lemma TwoOccurrences(s: seq<Entry>, i: nat, j: nat)
    requires i < j < |s| && s[i] == s[j]
    ensures multiset(s)[s[i]] >= 2
  {
    assert s == s[..i] + [s[i]] + s[i + 1..j] + [s[j]] + s[j + 1..];
  }

  lemma {:induction false} OneOccurrence(listed: seq<Entry>, e: Entry)
    requires Distinct(listed)
    ensures multiset(listed)[e] <= 1
  {
    if listed != [] {
      var front, last := listed[..|listed| - 1], listed[|listed| - 1];
      assert listed == front + [last];
      OneOccurrence(front, e);
      if last == e {
        assert e !in front;
      }
    }
  }

  lemma StartsOk(p: Phase, low: nat, grace: nat)
    requires p.Evicting? && p.answers == [] && p.log == [] && Sorted(p.order) && p.total == Total(p.order) < WORD
    ensures RunOk(p, low, grace)
  {
    ExactSub(Total(p.order), 0);
  }

  lemma PlacesAtStart(born: map<string, Info>, files: map<string, Info>, listed: seq<Entry>, order: seq<Entry>)
    requires forall name | name in files :: name in born && files[name] == born[name]
    requires Distinct(listed) && AllEntriesOf(files, listed) && AllListed(files, listed)
    requires multiset(order) == multiset(listed)
    ensures PlacesOk(born, files, order, []) && Total(order) == Total(listed)
  {
    SortKeepsListing(files, listed, order);
    forall i | 0 <= i < |order|
      ensures IsEntryOf(born, order[i])
    {
      assert IsEntryOf(files, order[i]);
    }
  }

  /** The sum of a scan that has met every file is the usage. */
  lemma WholeSum(files: map<string, Info>, listed: seq<Entry>, total: nat)
    requires ScanOk(files, listed, total) && AllListed(files, listed)
    ensures total == Usage(files)
  {
    ListedBound(files, listed);
    ListedCovers(files, listed);
  }

  lemma RescanDoneKeeps(s: State, step: Step)
    requires FilesOk(s) && Enabled(s, step) && step.RescanDone? && EvictorOk(s, step.c)
    ensures EvictorOk(Apply(s, step), step.c)
  {
    var p := s.evictors[step.c].phase;
    WholeSum(s.files, p.listed, p.total);
    PlacesAtStart(s.born, s.files, p.listed, step.order);
  }

  lemma RescanDoneStarts(s: State, step: Step)
    requires FilesOk(s) && Enabled(s, step) && step.RescanDone? && EvictorOk(s, step.c)
    ensures LoopOk(Apply(s, step), step.c)
  {
    var p := s.evictors[step.c].phase;
    WholeSum(s.files, p.listed, p.total);
    SameTotal(step.order, p.listed);
    StartsOk(Evicting(step.order, step.now, [], [], p.total), s.low, s.grace);
  }

  /** The log after one more decision is a run still, and the tracked total follows it. */
  lemma ExamineExtendsRun(p: Phase, low: nat, grace: nat, answer: Answer)
    requires p.Evicting? && RunOk(p, low, grace) && |p.log| < |p.order| && p.total > low
    requires p.order[|p.log|].size <= p.total < WORD
    ensures var e := p.order[|p.log|];
      var d := Decide(e, p.now, grace, answer);
      RunOk(p.(answers := p.answers + [answer], log := p.log + [d],
               total := p.total - (if d.Deleted? then e.size else 0)), low, grace)
  {
    var e := p.order[|p.log|];
    var d := Decide(e, p.now, grace, answer);
    assert (p.answers + [answer])[..|p.log|] == p.answers;
    ExtendRun(p.order, Total(p.order), low, p.now, grace, p.answers + [answer], p.log, d);
    StepArithmetic(Total(p.order), Freed(p.order, p.log), e.size);
    ExactSub(p.total, e.size);
  }

  /** Deciding against a file leaves everything in its place. */
  lemma PlacesAfterSkip(born: map<string, Info>, files: map<string, Info>, order: seq<Entry>, log: seq<Decision>,
                        d: Decision)
    requires PlacesOk(born, files, order, log) && |log| < |order| && !d.Deleted?
    ensures PlacesOk(born, files, order, log + [d])
  {
  }

  /** A deletion takes away the entry at hand and leaves the entries behind it. */
  lemma PlacesAfterDeletion(born: map<string, Info>, files: map<string, Info>, order: seq<Entry>, log: seq<Decision>)
    requires PlacesOk(born, files, order, log) && |log| < |order|
    ensures PlacesOk(born, files - {order[|log|].name}, order, log + [Deleted])
    ensures Usage(files - {order[|log|].name}) == Usage(files) - order[|log|].size
  {
    var n := |log|;
    assert IsEntryOf(files, order[n]);
    UsageRemove(files, order[n].name);
    forall i | n + 1 <= i < |order|
      ensures IsEntryOf(files - {order[n].name}, order[i])
    {
      assert IsEntryOf(files, order[i]) && order[n].name != order[i].name;
    }
  }

  /** What an examination leaves of the evictor and of the files. */
  lemma ExamineMoves(s: State, step: Step)
    requires Enabled(s, step) && step.Examine?
    requires var p := s.evictors[step.c].phase; p.order[|p.log|].size <= p.total < WORD
    ensures var Evictor(p, atLock, deletions) := s.evictors[step.c];
      var t := Apply(s, step);
      var e := p.order[|p.log|];
      var d := Decide(e, p.now, s.grace, step.answer);
      && step.c in t.evictors && t.owner == s.owner && t.born == s.born && t.low == s.low && t.grace == s.grace
      && t.capacity == s.capacity
      && t.files == (if d.Deleted? then s.files - {e.name} else s.files)
      && t.evictors[step.c]
         == Evictor(p.(answers := p.answers + [step.answer], log := p.log + [d],
                       total := p.total - (if d.Deleted? then e.size else 0)),
                    atLock, deletions + if d.Deleted? then 1 else 0)
  {
    var p := s.evictors[step.c].phase;
    ExactSub(p.total, p.order[|p.log|].size);
  }

  lemma PlacesAfterExamination(born: map<string, Info>, files: map<string, Info>, order: seq<Entry>,
                               log: seq<Decision>, d: Decision)
    requires PlacesOk(born, files, order, log) && |log| < |order|
    ensures var e := order[|log|];
      var left := if d.Deleted? then files - {e.name} else files;
      PlacesOk(born, left, order, log + [d]) && Usage(left) == Usage(files) - (if d.Deleted? then e.size else 0)
  {
    if d.Deleted? {
      PlacesAfterDeletion(born, files, order, log);
    } else {
      PlacesAfterSkip(born, files, order, log, d);
    }
  }

  lemma ExamineKeeps(s: State, step: Step)
    requires FilesOk(s) && Enabled(s, step) && step.Examine? && EvictorOk(s, step.c)
    ensures EvictorOk(Apply(s, step), step.c) && Usage(Apply(s, step).files) <= Usage(s.files)
  {
    var p := s.evictors[step.c].phase;
    PlacesAfterDeletion(s.born, s.files, p.order, p.log);
    PlacesAfterExamination(s.born, s.files, p.order, p.log, Decide(p.order[|p.log|], p.now, s.grace, step.answer));
    ExamineMoves(s, step);
  }

  lemma ExamineKeepsRun(s: State, step: Step)
    requires FilesOk(s) && Enabled(s, step) && step.Examine? && EvictorOk(s, step.c) && LoopOk(s, step.c)
    ensures LoopOk(Apply(s, step), step.c)
  {
    var p := s.evictors[step.c].phase;
    PlacesAfterDeletion(s.born, s.files, p.order, p.log);
    ExamineExtendsRun(p, s.low, s.grace, step.answer);
    ExamineMoves(s, step);
  }

  lemma OtherOwnKeeps(s: State, step: Step)
    requires Inv(s) && Enabled(s, step) && !step.List? && !step.RescanDone? && !step.Examine?
    ensures step.c in Apply(s, step).evictors && EvictorOk(Apply(s, step), step.c)
  {
    assert step.c in s.evictors ==> EvictorOk(s, step.c);
  }

  lemma OwnKeeps(s: State, step: Step)
    requires Inv(s) && Enabled(s, step)
    ensures step.c in Apply(s, step).evictors && EvictorOk(Apply(s, step), step.c) && LoopOk(Apply(s, step), step.c)
  {
    if step.List? {
      ListKeeps(s, step);
    } else if step.RescanDone? {
      assert EvictorOk(s, step.c);
      RescanDoneKeeps(s, step);
      RescanDoneStarts(s, step);
    } else if step.Examine? {
      assert EvictorOk(s, step.c) && LoopOk(s, step.c);
      ExamineKeeps(s, step);
      ExamineKeepsRun(s, step);
    } else {
      OtherOwnKeeps(s, step);
    }
  }

  lemma OthersKeepRun(s: State, step: Step, c: nat)
    requires Enabled(s, step) && c in s.evictors && step.c != c && LoopOk(s, c)
    ensures c in Apply(s, step).evictors && LoopOk(Apply(s, step), c)
  {
  }

  lemma OthersKeep(s: State, step: Step, c: nat)
    requires Inv(s) && Enabled(s, step) && c in s.evictors && step.c != c
    ensures c in Apply(s, step).evictors && EvictorOk(Apply(s, step), c)
  {
    assert EvictorOk(s, c);
    assert step.c in s.evictors ==> EvictorOk(s, step.c);
  }

  lemma FilesStay(s: State, step: Step)
    requires Inv(s) && Enabled(s, step)
    ensures FilesOk(Apply(s, step)) && Apply(s, step).capacity == s.capacity && Apply(s, step).low == s.low
  {
    if step.Examine? {
      assert EvictorOk(s, step.c);
      ExamineKeeps(s, step);
    }
  }

  lemma StepKeepsOwner(s: State, step: Step)
    requires Inv(s) && Enabled(s, step)
    ensures OwnerOk(Apply(s, step))
  {
    assert step.c in s.evictors ==> EvictorOk(s, step.c);
  }

  lemma StepKeepsInv(s: State, step: Step)
    requires Inv(s) && Enabled(s, step)
    ensures Inv(Apply(s, step)) && Apply(s, step).capacity == s.capacity
  {
    FilesStay(s, step);
    StepKeepsOwner(s, step);
    forall c | c in Apply(s, step).evictors
      ensures EvictorOk(Apply(s, step), c) && LoopOk(Apply(s, step), c)
    {
      if step.c == c {
        OwnKeeps(s, step);
      } else {
        assert c in s.evictors && LoopOk(s, c);
        OthersKeep(s, step, c);
        OthersKeepRun(s, step, c);
      }
    }
  }

  lemma {:induction false} RunKeepsInv(s: State, steps: seq<Step>)
    requires Inv(s) && Legal(s, steps)
    ensures Inv(After(s, steps)) && After(s, steps).capacity == s.capacity
    decreases |steps|
  {
    if steps != [] {
      StepKeepsInv(s, steps[0]);
      RunKeepsInv(Apply(s, steps[0]), steps[1..]);
    }
  }

  // ---------------------------------------------------------------- whole runs

  lemma InitHolds(start: State)
    requires Init(start)
    ensures Inv(start)
  {
  }

  /** The first scan may count files that others delete meanwhile, but it misses none that is there when it ends: an
      evictor that leaves without the lock leaves a directory within its capacity. */
  lemma UnlockedExitIsRight(start: State, steps: seq<Step>, c: nat)
    requires Init(start) && Legal(start, steps) && Enabled(After(start, steps), FirstDone(c))
    requires After(start, steps).evictors[c].phase.total <= start.capacity
    ensures Usage(After(start, steps).files) <= start.capacity
  {
    RunKeepsInv(start, steps);
    var s := After(start, steps);
    assert EvictorOk(s, c);
    var listed := s.evictors[c].phase.listed;
    forall i | 0 <= i < |listed| && listed[i].name in s.files
      ensures IsEntryOf(s.files, listed[i])
    {
      assert IsEntryOf(s.born, listed[i]);
    }
    ListedCovers(s.files, listed);
  }

  /** So the first look decides rightly: an evictor that leaves after it leaves a directory within its capacity, and while
      usage exceeds the capacity every evictor goes on to wait for the lock. */
  lemma FirstLookIsRight(start: State, steps: seq<Step>, c: nat)
    requires Init(start) && Legal(start, steps) && Enabled(After(start, steps), FirstDone(c))
    ensures var s := After(start, steps);
      var p := Apply(s, FirstDone(c)).evictors[c].phase;
      && (p.Finished? || p.Waiting?) && Apply(s, FirstDone(c)).files == s.files
      && (p.Finished? <==> Total(s.evictors[c].phase.listed) <= start.capacity)
      && (p.Finished? ==> Usage(s.files) <= start.capacity)
  {
    RunKeepsInv(start, steps);
    assert EvictorOk(After(start, steps), c);
    if After(start, steps).evictors[c].phase.total <= start.capacity {
      UnlockedExitIsRight(start, steps, c);
    }
  }

  /** The second look decides exactly: its evictor goes into the loop if usage exceeds the capacity, and otherwise leaves
      and gives the lock back. */
  lemma SecondLookIff(start: State, steps: seq<Step>, c: nat, order: seq<Entry>, now: int)
    requires Init(start) && Legal(start, steps) && Enabled(After(start, steps), RescanDone(c, order, now))
    ensures var s := After(start, steps);
      var t := Apply(s, RescanDone(c, order, now));
      t.files == s.files &&
      if Usage(s.files) > start.capacity
      then t.evictors[c].phase == Evicting(order, now, [], [], Usage(s.files)) && t.owner == Some(c)
      else t.evictors[c].phase == Finished && t.owner == None
  {
    RescanSumIsUsage(start, steps, c);
    RunKeepsInv(start, steps);
    assert EvictorOk(After(start, steps), c);
  }

  /** The second scan adds up to the actual usage, one file at a time, because the lock keeps the other evictors from
      deleting: its sum is exact when it ends. */
  lemma RescanSumIsUsage(start: State, steps: seq<Step>, c: nat)
    requires Init(start) && Legal(start, steps)
    requires var s := After(start, steps);
      c in s.evictors && s.evictors[c].phase.Rescanning? && AllListed(s.files, s.evictors[c].phase.listed)
    ensures After(start, steps).evictors[c].phase.total == Usage(After(start, steps).files)
  {
    RunKeepsInv(start, steps);
    var s := After(start, steps);
    assert EvictorOk(s, c);
    ListedBound(s.files, s.evictors[c].phase.listed);
    ListedCovers(s.files, s.evictors[c].phase.listed);
  }

  /** In every reachable state, an evictor in its loop holds the directory lock, its tracked total is the actual usage,
      no other evictor is in its loop, and the loop was entered with actual usage over capacity. */
  lemma TrackedTotalIsUsage(start: State, steps: seq<Step>, c: nat)
    requires Init(start) && Legal(start, steps)
    requires c in After(start, steps).evictors && After(start, steps).evictors[c].phase.Evicting?
    ensures var s := After(start, steps);
      && s.owner == Some(c)
      && s.evictors[c].phase.total == Usage(s.files)
      && s.evictors[c].atLock > start.capacity
      && forall d | d in s.evictors && s.evictors[d].phase.Evicting? :: d == c
  {
    RunKeepsInv(start, steps);
    var s := After(start, steps);
    assert EvictorOk(s, c);
    forall d | d in s.evictors && s.evictors[d].phase.Evicting?
      ensures d == c
    {
      assert EvictorOk(s, d);
    }
  }

  /** What one evictor among many does is the loop by itself: when it finishes, its decisions are the run on the sorted
      entries of its scan, with the file system's answers that it got. */
  lemma FinishedLoopIsRun(start: State, steps: seq<Step>, c: nat)
    requires Init(start) && Legal(start, steps) && Enabled(After(start, steps), Finish(c))
    ensures var s := After(start, steps);
      var p := s.evictors[c].phase;
      && Total(p.order) < WORD && Sorted(p.order) && |p.answers| == |p.log| <= |p.order|
      && IsRun(p.order, Total(p.order), s.low, p.now, s.grace, p.answers, p.log)
      && Usage(s.files) == Total(Survivors(p.order, p.log))
  {
    RunKeepsInv(start, steps);
    var s := After(start, steps);
    assert EvictorOk(s, c) && LoopOk(s, c);
    TrackedIsExact(s.evictors[c].phase.order, s.evictors[c].phase.log);
  }

  /** What an eviction achieves: when it finishes, usage is down to the low-water mark, or every file that is left was
      examined and is too recent or could not be removed. */
  lemma FinishIsJustified(start: State, steps: seq<Step>, c: nat)
    requires Init(start) && Legal(start, steps) && Enabled(After(start, steps), Finish(c))
    ensures var s := After(start, steps);
      var p := s.evictors[c].phase;
      |p.answers| <= |p.order| &&
      (Usage(s.files) > s.low ==>
         forall name | name in s.files ::
           exists q | 0 <= q < |p.answers| ::
             p.order[q].name == name && (p.now - s.files[name].atime < s.grace || p.answers[q] != Removed))
  {
    FinishedLoopIsRun(start, steps, c);
    RunKeepsInv(start, steps);
    var s := After(start, steps);
    assert EvictorOk(s, c);
    var p := s.evictors[c].phase;
    if Usage(s.files) > s.low {
      ExitIsJustified(p.order, s.low, p.now, s.grace, p.answers, p.log);
      forall name | name in s.files
        ensures exists q | 0 <= q < |p.answers| ::
                  p.order[q].name == name && (p.now - s.files[name].atime < s.grace || p.answers[q] != Removed)
      {
        assert Listed(p.order, name);
        var q :| 0 <= q < |p.order| && p.order[q].name == name;
        assert IsEntryOf(s.born, p.order[q]) && s.files[name] == s.born[name];
        assert !p.log[q].Deleted?;
      }
    }
  }

  /** Nobody keeps the directory lock: in every reachable state its owner is scanning again or in its loop. */
  lemma LockIsGivenBack(start: State, steps: seq<Step>)
    requires Init(start) && Legal(start, steps)
    ensures var s := After(start, steps);
      s.owner.Some? ==>
        s.owner.value in s.evictors &&
        (s.evictors[s.owner.value].phase.Rescanning? || s.evictors[s.owner.value].phase.Evicting?)
  {
    InitHolds(start);
    RunKeepsInv(start, steps);
  }

  /** What an evictor among many deletes is old enough by its own access time, and every file that is still there with a
      smaller key has had its turn before. */
  lemma DeletionsAreOldAndInOrder(start: State, steps: seq<Step>, c: nat, i: nat)
    requires Init(start) && Legal(start, steps)
    requires c in After(start, steps).evictors && After(start, steps).evictors[c].phase.Evicting?
    requires var p := After(start, steps).evictors[c].phase; i < |p.log| && p.log[i].Deleted?
    ensures var s := After(start, steps);
      var p := s.evictors[c].phase;
      && i < |p.order| && p.order[i].name in start.files
      && p.now - start.files[p.order[i].name].atime >= s.grace
      && forall name | name in s.files && s.files[name].key < start.files[p.order[i].name].key ::
           exists q | 0 <= q < i :: p.order[q].name == name && !p.log[q].Deleted?
  {
    InitHolds(start);
    RunKeepsInv(start, steps);
    var s := After(start, steps);
    assert EvictorOk(s, c) && LoopOk(s, c);
    var p := s.evictors[c].phase;
    BornStays(start, steps);
    assert IsEntryOf(s.born, p.order[i]);
    assert p.log[i] == Decide(p.order[i], p.now, s.grace, p.answers[i]);
    forall name | name in s.files && s.files[name].key < p.order[i].key
      ensures exists q | 0 <= q < i :: p.order[q].name == name && !p.log[q].Deleted?
    {
      assert s.born[name] == s.files[name];
      var q := TurnBefore(s.born, s.files, p.order, p.log, i, name);
    }
  }

  /** A file that is there, with a smaller key than an examined one, was examined before it and not deleted. */
  lemma TurnBefore(born: map<string, Info>, files: map<string, Info>, order: seq<Entry>, log: seq<Decision>, i: nat,
                   name: string) returns (q: nat)
    requires PlacesOk(born, files, order, log) && Sorted(order) && i < |log| <= |order|
    requires name in files && name in born && born[name].key < order[i].key
    ensures q < i && order[q].name == name && !log[q].Deleted?
  {
    assert Listed(order, name);
    q :| 0 <= q < |order| && order[q].name == name;
    assert IsEntryOf(born, order[q]);
    if i <= q {
      KeysRise(order, i, q);
    }
  }

  lemma {:induction false} BornStays(s: State, steps: seq<Step>)
    requires Legal(s, steps)
    ensures After(s, steps).born == s.born && After(s, steps).grace == s.grace
    decreases |steps|
  {
    if steps != [] {
      BornStays(Apply(s, steps[0]), steps[1..]);
    }
  }

  /** An evictor that waited behind a sufficient one deletes nothing: if usage was within capacity when it got the
      lock, it has deleted no file, and no step of its own takes one away. */
  lemma LateEvictorDeletesNothing(start: State, steps: seq<Step>, c: nat)
    requires Init(start) && Legal(start, steps) && c in After(start, steps).evictors
    requires After(start, steps).evictors[c].atLock <= start.capacity
    ensures var s := After(start, steps);
      && s.evictors[c].deletions == 0
      && forall step | Enabled(s, step) && step.c == c :: Apply(s, step).files == s.files
  {
    InitHolds(start);
    RunKeepsInv(start, steps);
    assert EvictorOk(After(start, steps), c);
  }

  ghost predicate Settled(s: State) {
    Usage(s.files) <= s.capacity && forall c | c in s.evictors :: !s.evictors[c].phase.Evicting?
  }

  lemma SettledStep(s: State, step: Step)
    requires Inv(s) && Settled(s) && Enabled(s, step)
    ensures Settled(Apply(s, step)) && Apply(s, step).files == s.files
  {
    if step.RescanDone? {
      assert EvictorOk(s, step.c);
      ListedBound(s.files, s.evictors[step.c].phase.listed);
    }
  }

  /** Once usage is within capacity and no eviction is under way, no evictor ever deletes a file again, however many
      arrive or are already waiting. */
  lemma {:induction false} SettledForever(s: State, steps: seq<Step>)
    requires Inv(s) && Settled(s) && Legal(s, steps)
    ensures Settled(After(s, steps)) && After(s, steps).files == s.files
    decreases |steps|
  {
    if steps != [] {
      SettledStep(s, steps[0]);
      StepKeepsInv(s, steps[0]);
      SettledForever(Apply(s, steps[0]), steps[1..]);
    }
  }

  /** Only one evictor is in its loop, so one that leaves usage within capacity settles the directory. */
  lemma FinishSettles(s: State, c: nat)
    requires Inv(s) && Enabled(s, Finish(c)) && s.evictors[c].phase.total <= s.capacity
    ensures Settled(Apply(s, Finish(c)))
  {
    assert EvictorOk(s, c);
    forall d | d in s.evictors && d != c
      ensures !s.evictors[d].phase.Evicting?
    {
      assert EvictorOk(s, d);
    }
  }

  /** After a sufficient eviction nobody deletes anything: neither those that were waiting for the lock behind it nor
      those that come later. */
  lemma SufficientEvictionIsFinal(start: State, before: seq<Step>, c: nat, later: seq<Step>)
    requires Init(start) && Legal(start, before) && Enabled(After(start, before), Finish(c))
    requires After(start, before).evictors[c].phase.total <= start.capacity
    requires Legal(Apply(After(start, before), Finish(c)), later)
    ensures After(Apply(After(start, before), Finish(c)), later).files == After(start, before).files
  {
    RunKeepsInv(start, before);
    var s := After(start, before);
    FinishSettles(s, c);
    StepKeepsInv(s, Finish(c));
    SettledForever(Apply(s, Finish(c)), later);
  }

  /** The loop's 64-bit subtraction never underflows. */
  lemma ExamineNeverUnderflows(start: State, steps: seq<Step>, c: nat)
    requires Init(start) && Legal(start, steps)
    requires var s := After(start, steps);
      c in s.evictors && s.evictors[c].phase.Evicting? && |s.evictors[c].phase.log| < |s.evictors[c].phase.order|
    ensures var p := After(start, steps).evictors[c].phase;
      p.order[|p.log|].size <= p.total
  {
    RunKeepsInv(start, steps);
    var s := After(start, steps);
    assert EvictorOk(s, c);
    var e := s.evictors[c].phase.order[|s.evictors[c].phase.log|];
    assert IsEntryOf(s.files, e);
    UsageRemove(s.files, e.name);
  }
}
