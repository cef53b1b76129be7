/** dyad_dtl_margo_addr_cache_lookup: textual addresses and the handles they were resolved to, in an array that grows. */
module AddressCache {
  import opened Files

  const FIRST_CAPACITY: nat := 8

  datatype Entry = Entry(addrStr: string, addr: nat)

  /** A lookup, with what the outside answers should it be asked: the handle that the address resolves to, whether the
      array can grow and whether the string can be copied. */
  datatype Call = Call(addrStr: string, resolved: Option<nat>, canGrow: bool, canCopy: bool)

  datatype Code = Ok | LookupFailed | SysFail

  /** What a lookup returns, whether it had the address resolved, and the handle that it gave back. */
  datatype Answer = Answer(rc: Code, out: Option<nat>, asked: bool, freed: Option<nat>)

  datatype Table = Table(entries: seq<Entry>, cap: nat)

  const EMPTY := Table([], 0)

  /** The first entry of an address. */
  function Find(entries: seq<Entry>, addrStr: string): Option<nat> {
    if entries == [] then None
    else if entries[0].addrStr == addrStr then Some(entries[0].addr)
    else Find(entries[1..], addrStr)
  }

  function Grow(cap: nat): nat {
    if cap == 0 then FIRST_CAPACITY else cap * 2
  }

  /** One lookup. */
  function Look(t: Table, c: Call): (Table, Answer) {
    var found := Find(t.entries, c.addrStr);
    if found.Some? then (t, Answer(Ok, found, false, None))
    else if c.resolved.None? then (t, Answer(LookupFailed, None, true, None))
    else
      var addr := c.resolved.value;
      var full := |t.entries| == t.cap;
      if full && !c.canGrow then (t, Answer(SysFail, None, true, Some(addr)))
      else
        var cap := if full then Grow(t.cap) else t.cap;
        if !c.canCopy then (t.(cap := cap), Answer(SysFail, None, true, Some(addr)))
        else (Table(t.entries + [Entry(c.addrStr, addr)], cap), Answer(Ok, c.resolved, true, None))
  }

  /** Finding is by equality of the whole address, and the first entry wins. */
  lemma {:induction false} FindFirst(entries: seq<Entry>, addrStr: string)
    ensures match Find(entries, addrStr)
      case None => forall i | 0 <= i < |entries| :: entries[i].addrStr != addrStr
      case Some(addr) => exists i :: 0 <= i < |entries| && entries[i] == Entry(addrStr, addr)
                                     && forall j | 0 <= j < i :: entries[j].addrStr != addrStr
  {
    if entries != [] && entries[0].addrStr != addrStr {
      FindFirst(entries[1..], addrStr);
      assert forall i | 1 <= i < |entries| :: entries[i] == entries[1..][i - 1];
      if Find(entries, addrStr).Some? {
        var i :| 0 <= i < |entries| - 1 && entries[1..][i] == Entry(addrStr, Find(entries, addrStr).value)
              && forall j | 0 <= j < i :: entries[1..][j].addrStr != addrStr;
        assert entries[i + 1] == Entry(addrStr, Find(entries, addrStr).value);
      }
    } else if entries != [] {
      assert entries[0] == Entry(addrStr, Find(entries, addrStr).value);
    }
  }

  /** What a lookup returns, case by case: a handle that it knows or that the address resolves to, unless the array must
      grow and cannot, or the string cannot be copied; the handle that it cannot keep is given back. */
  lemma AnswerIs(t: Table, c: Call)
    ensures var (after, a) := Look(t, c);
      var known := exists e :: e in t.entries && e.addrStr == c.addrStr;
      var kept := c.resolved.Some? && (|t.entries| == t.cap ==> c.canGrow) && c.canCopy;
      && (a.rc == Ok <==> known || kept) && (a.rc == LookupFailed <==> !known && c.resolved.None?)
      && (a.out.Some? <==> a.rc == Ok) && (a.asked <==> !known)
      && a.freed == (if a.rc == SysFail then c.resolved else None)
      && (!known && kept ==> a.out == c.resolved && after.entries == t.entries + [Entry(c.addrStr, c.resolved.value)])
      && (known || !kept ==> after.entries == t.entries)
  {
    FindFirst(t.entries, c.addrStr);
  }

  class Cache {
    var slots: array<Entry>
    var len: nat

    ghost predicate Valid()
      reads this
    {
      len <= slots.Length
    }

    ghost function View(): Table
      requires Valid()
      reads this, slots
    {
      Table(slots[..len], slots.Length)
    }

    constructor ()
      ensures Valid() && fresh(slots) && View() == EMPTY
    {
      slots := new Entry[0];
      len := 0;
    }

    /** The loop over the entries. */
    method Search(addrStr: string) returns (found: Option<nat>)
      requires Valid()
      ensures found == Find(slots[..len], addrStr)
    {
      var i := 0;
      while i < len
        invariant i <= len
        invariant Find(slots[..len], addrStr) == Find(slots[i..len], addrStr)
      {
        if slots[i].addrStr == addrStr {
          return Some(slots[i].addr);
        }
        assert slots[i..len][1..] == slots[i + 1..len];
        i := i + 1;
      }
      return None;
    }

    method Lookup(c: Call) returns (a: Answer)
      requires Valid()
      modifies this, slots
      ensures Valid() && (slots == old(slots) || fresh(slots))
      ensures (View(), a) == Look(old(View()), c)
    {
      var found := Search(c.addrStr);
      if found.Some? {
        return Answer(Ok, found, false, None);
      }
      if c.resolved.None? {
        return Answer(LookupFailed, None, true, None);
      }
      var addr := c.resolved.value;
      if len == slots.Length {
        var newCap := if slots.Length == 0 then FIRST_CAPACITY else slots.Length * 2;
        if !c.canGrow {
          return Answer(SysFail, None, true, Some(addr));
        }
        var grown := new Entry[newCap](_ => Entry("", 0));
        forall i | 0 <= i < len {
          grown[i] := slots[i];
        }
        assert grown[..len] == slots[..len];
        slots := grown;
        assert slots[..len] == old(slots[..len]);
      }
      if !c.canCopy {
        return Answer(SysFail, None, true, Some(addr));
      }
      slots[len] := Entry(c.addrStr, addr);
      len := len + 1;
      assert slots[..len] == old(slots[..len]) + [Entry(c.addrStr, addr)];
      return Answer(Ok, Some(addr), true, None);
    }
  }

  // ---------------------------------------------------------------- sequences of lookups

  function Run(t: Table, calls: seq<Call>): Table
    decreases calls
  {
    if calls == [] then t else Run(Look(t, calls[0]).0, calls[1..])
  }

  function Answers(t: Table, calls: seq<Call>): (answers: seq<Answer>)
    ensures |answers| == |calls|
    decreases calls
  {
    if calls == [] then [] else [Look(t, calls[0]).1] + Answers(Look(t, calls[0]).0, calls[1..])
  }

  lemma {:induction false} FindAppend(entries: seq<Entry>, e: Entry, addrStr: string)
    ensures Find(entries + [e], addrStr)
         == if Find(entries, addrStr).Some? then Find(entries, addrStr)
            else if e.addrStr == addrStr then Some(e.addr) else None
  {
    if entries == [] {
      assert ([] + [e])[1..] == [];
    } else {
      assert (entries + [e])[1..] == entries[1..] + [e];
      FindAppend(entries[1..], e, addrStr);
    }
  }

  /** One lookup binds at most its own address, and only one that had no handle yet. */
  lemma LookBinds(t: Table, c: Call, addrStr: string)
    ensures var (after, a) := Look(t, c);
      Find(after.entries, addrStr)
        == if addrStr == c.addrStr && a.rc == Ok then a.out else Find(t.entries, addrStr)
  {
    if c.resolved.Some? {
      FindAppend(t.entries, Entry(c.addrStr, c.resolved.value), addrStr);
    }
  }

  /** Whether one of the calls is a successful lookup of the address. */
  predicate Resolved(calls: seq<Call>, answers: seq<Answer>, n: nat, addrStr: string)
    requires n <= |calls| == |answers|
  {
    exists i | 0 <= i < n :: calls[i].addrStr == addrStr && answers[i].rc == Ok
  }

  /** Once an address has a handle, every later lookup of it answers with that handle, and asks nobody, however the
      array grows and whatever fails in between. */
  lemma {:induction false} BoundForever(t: Table, calls: seq<Call>, j: nat, addrStr: string)
    requires Find(t.entries, addrStr).Some?
    requires j < |calls| && calls[j].addrStr == addrStr
    ensures Answers(t, calls)[j] == Answer(Ok, Find(t.entries, addrStr), false, None)
    decreases calls
  {
    if j > 0 {
      LookBinds(t, calls[0], addrStr);
      BoundForever(Look(t, calls[0]).0, calls[1..], j - 1, addrStr);
    }
  }

  lemma {:induction false} FirstAnswerIsKept(t: Table, calls: seq<Call>, i: nat, j: nat)
    requires i < j < |calls| && calls[i].addrStr == calls[j].addrStr
    requires Answers(t, calls)[i].rc == Ok
    ensures Answers(t, calls)[j] == Answer(Ok, Answers(t, calls)[i].out, false, None)
    decreases calls
  {
    var next := Look(t, calls[0]).0;
    if i > 0 {
      FirstAnswerIsKept(next, calls[1..], i - 1, j - 1);
    } else {
      LookBinds(t, calls[0], calls[0].addrStr);
      assert Answers(t, calls)[0].out.Some?;
      BoundForever(next, calls[1..], j - 1, calls[j].addrStr);
    }
  }

  /** The address is resolved by a lookup exactly when the cache was empty of it and no lookup before succeeded. */
  lemma {:induction false} AskedIffNew(t: Table, calls: seq<Call>, j: nat)
    requires j < |calls|
    ensures Answers(t, calls)[j].asked
       <==> Find(t.entries, calls[j].addrStr).None? && !Resolved(calls, Answers(t, calls), j, calls[j].addrStr)
    ensures Answers(t, calls)[j].asked && Answers(t, calls)[j].rc == Ok ==> Answers(t, calls)[j].out == calls[j].resolved
    decreases calls
  {
    var next, addrStr, answers := Look(t, calls[0]).0, calls[j].addrStr, Answers(t, calls);
    if j > 0 {
      LookBinds(t, calls[0], addrStr);
      AskedIffNew(next, calls[1..], j - 1);
      var rest := Answers(next, calls[1..]);
      if Resolved(calls[1..], rest, j - 1, addrStr) {
        var i :| 0 <= i < j - 1 && calls[1..][i].addrStr == addrStr && rest[i].rc == Ok;
        assert calls[i + 1].addrStr == addrStr && answers[i + 1].rc == Ok;
      }
      if Resolved(calls, answers, j, addrStr) {
        var i :| 0 <= i < j && calls[i].addrStr == addrStr && answers[i].rc == Ok;
        assert i > 0 ==> calls[1..][i - 1].addrStr == addrStr && rest[i - 1].rc == Ok;
      }
    }
  }

  // ---------------------------------------------------------------- handles and capacity

  /** How often a handle is cached. */
  function Cached(entries: seq<Entry>, addr: nat): nat {
    if entries == [] then 0
    else Cached(entries[..|entries| - 1], addr) + (if entries[|entries| - 1].addr == addr then 1 else 0)
  }

  /** How often resolving has produced it. */
  function Produced(calls: seq<Call>, answers: seq<Answer>, addr: nat): nat
    requires |calls| == |answers|
  {
    if calls == [] then 0
    else (if answers[0].asked && calls[0].resolved == Some(addr) then 1 else 0) + Produced(calls[1..], answers[1..], addr)
  }

  /** How often it was given back. */
  function Freed(answers: seq<Answer>, addr: nat): nat {
    if answers == [] then 0 else (if answers[0].freed == Some(addr) then 1 else 0) + Freed(answers[1..], addr)
  }

  lemma LookConserves(t: Table, c: Call, addr: nat)
    ensures var (after, a) := Look(t, c);
      Cached(t.entries, addr) + (if a.asked && c.resolved == Some(addr) then 1 else 0)
        == Cached(after.entries, addr) + (if a.freed == Some(addr) then 1 else 0)
  {
    if c.resolved.Some? {
      assert (t.entries + [Entry(c.addrStr, c.resolved.value)])[..|t.entries|] == t.entries;
    }
  }

  /** No handle is lost and none is given back while it is cached: each one produced is either in the cache or was
      given back, once. */
  lemma {:induction false} HandlesConserved(t: Table, calls: seq<Call>, addr: nat)
    ensures Cached(t.entries, addr) + Produced(calls, Answers(t, calls), addr)
         == Cached(Run(t, calls).entries, addr) + Freed(Answers(t, calls), addr)
    decreases calls
  {
    if calls != [] {
      LookConserves(t, calls[0], addr);
      HandlesConserved(Look(t, calls[0]).0, calls[1..], addr);
      assert Answers(t, calls)[1..] == Answers(Look(t, calls[0]).0, calls[1..]);
    }
  }

  /** The entries always fit, and take at most twice the room that they need. */
  lemma {:induction false} CapacityIsBounded(t: Table, calls: seq<Call>)
    requires |t.entries| <= t.cap && (t.cap <= 8 || t.cap <= 2 * |t.entries|)
    ensures var after := Run(t, calls);
      |after.entries| <= after.cap && (after.cap <= 8 || after.cap <= 2 * |after.entries|)
    decreases calls
  {
    if calls != [] {
      CapacityIsBounded(Look(t, calls[0]).0, calls[1..]);
    }
  }
}
