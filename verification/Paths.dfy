/** Joining a managed directory with a relative path, and getting the relative path back, on C strings in caller-supplied
    buffers. */
module Paths {
  import opened Files

  const NUL := '\0'
  const PATH_MAX: nat := 4096

  /** The text of a C string: no terminator inside. */
  predicate IsText(s: string) {
    NUL !in s
  }

  /** A buffer that holds a terminated string. */
  predicate Terminated(buffer: string) {
    NUL in buffer
  }

  /** strlen on a terminated buffer. */
  function Length(buffer: string): (n: nat)
    requires Terminated(buffer)
    ensures n < |buffer| && buffer[n] == NUL && NUL !in buffer[..n]
  {
    if buffer[0] == NUL then 0
    else
      var n := 1 + Length(buffer[1..]);
      assert buffer[..n] == [buffer[0]] + buffer[1..][..n - 1];
      n
  }

  /** The string that a buffer holds. */
  function Text(buffer: string): (s: string)
    requires Terminated(buffer)
    ensures IsText(s)
  {
    buffer[..Length(buffer)]
  }

  lemma TextIs(buffer: string, s: string)
    requires IsText(s) && |s| < |buffer| && buffer[..|s|] == s && buffer[|s|] == NUL
    ensures Terminated(buffer) && Text(buffer) == s
  {
    assert buffer[|s|] in buffer;
    assert forall i | 0 <= i < |s| :: buffer[i] == s[i];
    assert forall i | 0 <= i < Length(buffer) :: buffer[..Length(buffer)][i] == buffer[i];
  }

  // ---------------------------------------------------------------- what the two functions compute

  predicate EndsWith(s: string, delim: string) {
    |delim| <= |s| && s[|s| - |delim|..] == delim
  }

  /** The prefix without one trailing delimiter. */
  function Trim(prefix: string, delim: string): (r: string)
    ensures r <= prefix
  {
    if EndsWith(prefix, delim) then prefix[..|prefix| - |delim|] else prefix
  }

  function Join(prefix: string, rest: string, delim: string): string {
    Trim(prefix, delim) + delim + rest
  }

  /** Joining puts exactly one delimiter more than a prefix that has none at its end. */
  lemma JoinReads(prefix: string, rest: string, delim: string)
    ensures Join(prefix, rest, delim)
         == if |delim| <= |prefix| && prefix[|prefix| - |delim|..] == delim then prefix + rest
            else prefix + delim + rest
  {
    if EndsWith(prefix, delim) {
      assert prefix == Trim(prefix, delim) + delim;
    }
  }

  /** extract_user_path, on values: the branches in the order of the code. */
  function Extract(prefix: string, full: string, delim: string, capacity: nat): Option<string> {
    if !(prefix <= full) then None
    else if |full| > PATH_MAX || |delim| > PATH_MAX || |prefix| > PATH_MAX then None
    else
      var prefixLen := |Trim(prefix, delim)|;
      if |full| <= prefixLen + |delim| then None
      else if full[prefixLen..prefixLen + |delim|] != delim then None
      else
        var uLen := |full| - prefixLen - |delim|;
        if uLen + 1 > capacity then None else Some(full[|full| - uLen..])
  }

  // ---------------------------------------------------------------- mutual inverses

  lemma ExtractedIsPart(prefix: string, full: string, delim: string, capacity: nat)
    requires Extract(prefix, full, delim, capacity).Some?
    ensures var u := Extract(prefix, full, delim, capacity).value;
      u != "" && full == Join(prefix, u, delim) && |full| <= PATH_MAX && |u| < capacity
  {
    var t := Trim(prefix, delim);
    assert full[..|t|] == prefix[..|t|] == t;
    assert full == full[..|t|] + full[|t|..|t| + |delim|] + full[|t| + |delim|..];
  }

  lemma PartIsExtracted(prefix: string, u: string, delim: string, capacity: nat)
    requires u != "" && |Join(prefix, u, delim)| <= PATH_MAX && |u| < capacity
    ensures Extract(prefix, Join(prefix, u, delim), delim, capacity) == Some(u)
  {
    var t, full := Trim(prefix, delim), Join(prefix, u, delim);
    assert prefix == t || prefix == t + delim;
    assert full[|t|..|t| + |delim|] == delim;
    assert full[|full| - |u|..] == u;
  }

  /** Extraction succeeds with u exactly when the full path is the join of the prefix and a non-empty u, and both fit. */
  lemma ExtractIff(prefix: string, full: string, delim: string, capacity: nat, u: string)
    ensures Extract(prefix, full, delim, capacity) == Some(u)
       <==> u != "" && full == Join(prefix, u, delim) && |full| <= PATH_MAX && |u| < capacity
  {
    if Extract(prefix, full, delim, capacity).Some? {
      ExtractedIsPart(prefix, full, delim, capacity);
    }
    if u != "" && full == Join(prefix, u, delim) && |full| <= PATH_MAX && |u| < capacity {
      PartIsExtracted(prefix, u, delim, capacity);
    }
  }

  /** Joining and extracting: the relative path comes back, whether or not the prefix ends with the delimiter. */
  lemma JoinThenExtract(prefix: string, u: string, delim: string, capacity: nat)
    requires u != "" && |Join(prefix, u, delim)| <= PATH_MAX && |u| < capacity
    ensures Extract(prefix, Join(prefix, u, delim), delim, capacity) == Some(u)
  {
    ExtractIff(prefix, Join(prefix, u, delim), delim, capacity, u);
  }

  /** Extracting and joining: the full path comes back. */
  lemma ExtractThenJoin(prefix: string, full: string, delim: string, capacity: nat)
    requires Extract(prefix, full, delim, capacity).Some?
    ensures Join(prefix, Extract(prefix, full, delim, capacity).value, delim) == full
  {
    ExtractIff(prefix, full, delim, capacity, Extract(prefix, full, delim, capacity).value);
  }

  /** Two sides that share only the relative path: the consumer finds in its own full path the relative path that the
      producer found in its own, and each side's full path can be rebuilt from it. */
  lemma SharedRelativePath(producer: string, consumer: string, full: string, delim: string, capacity: nat)
    requires Extract(producer, full, delim, capacity).Some?
    requires var u := Extract(producer, full, delim, capacity).value;
      |Join(consumer, u, delim)| <= PATH_MAX
    ensures var u := Extract(producer, full, delim, capacity).value;
      && Extract(consumer, Join(consumer, u, delim), delim, capacity) == Some(u)
      && Join(producer, u, delim) == full
  {
    var u := Extract(producer, full, delim, capacity).value;
    ExtractIff(producer, full, delim, capacity, u);
    JoinThenExtract(consumer, u, delim, capacity);
  }

  /** A path that was extracted can be joined again in a buffer of the full path's size plus one exactly when the
      prefix has no trailing delimiter or the delimiter is empty. */
  lemma JoinFitsWhereItCameFromIff(prefix: string, full: string, delim: string, capacity: nat)
    requires Extract(prefix, full, delim, capacity).Some?
    ensures |prefix| + |delim| + |Extract(prefix, full, delim, capacity).value| + 1 <= |full| + 1
       <==> delim == "" || !EndsWith(prefix, delim)
  {
    ExtractIff(prefix, full, delim, capacity, Extract(prefix, full, delim, capacity).value);
  }

  // ---------------------------------------------------------------- the functions on buffers

  /** strncmp (a + at, b, n) == 0 for n characters that are known to be there in b. */
  method Matches(a: string, at: nat, b: string) returns (same: bool)
    requires at <= |a|
    ensures same <==> at + |b| <= |a| && a[at..at + |b|] == b
  {
    var i := 0;
    while i < |b|
      invariant i <= |b| && at + i <= |a|
      invariant a[at..at + i] == b[..i]
    {
      if at + i == |a| || a[at + i] != b[i] {
        assert at + |b| <= |a| ==> a[at..at + |b|][i] == a[at + i];
        return false;
      }
      i := i + 1;
    }
    return true;
  }

  /** The length of a prefix without one trailing delimiter. */
  method TrimmedLength(prefix: string, delim: string) returns (n: nat)
    ensures n == |Trim(prefix, delim)|
  {
    n := |prefix|;
    if n >= |delim| {
      var trailing := Matches(prefix, n - |delim|, delim);
      assert prefix[n - |delim|..n] == prefix[n - |delim|..];
      if trailing {
        n := n - |delim|;
      }
    }
  }

  /** A path joined again from its parts is the full path that they were extracted from. */
  lemma PartsAreOf(prefix: string, u: string, delim: string)
    ensures forall full, capacity | Extract(prefix, full, delim, capacity) == Some(u) ::
              full == Join(prefix, u, delim) && |prefix| + |delim| + |u| <= |full| + |delim|
  {
    forall full, capacity | Extract(prefix, full, delim, capacity) == Some(u)
      ensures full == Join(prefix, u, delim) && |prefix| + |delim| + |u| <= |full| + |delim|
    {
      ExtractIff(prefix, full, delim, capacity, u);
      JoinReads(prefix, u, delim);
    }
  }

  /** concat_str: `str` holds the prefix and receives the result. */
  method ConcatStr(str: array<char>, toAppend: string, connector: string, capacity: nat) returns (ok: bool)
    requires capacity <= str.Length && Terminated(str[..])
    requires IsText(toAppend) && IsText(connector)
    modifies str
    ensures ok <==> |old(Text(str[..]))| + |connector| + |toAppend| + 1 <= capacity
    ensures !ok ==> str[..] == old(str[..])
    ensures ok ==> Terminated(str[..]) && Text(str[..]) == Join(old(Text(str[..])), toAppend, connector)
    // given what was extracted from a full path, with the room for it and one more connector, it restores the full path
    ensures forall full, n | Extract(old(Text(str[..])), full, connector, n) == Some(toAppend) ::
              (|full| + |connector| + 1 <= capacity ==> ok) && (ok ==> Text(str[..]) == full)
  {
    ghost var prefix := Text(str[..]);
    PartsAreOf(prefix, toAppend, connector);
    var strLenOrg := Length(str[..]);
    var allLen := strLenOrg + |connector| + |toAppend|;
    if allLen + 1 > capacity {
      return false;
    }
    var strLen := TrimmedLength(str[..strLenOrg], connector);
    var joined := str[..strLen] + connector + toAppend;
    assert joined == Join(prefix, toAppend, connector);
    // the scratch buffer starts out zeroed, so a shorter result is terminated where it ends
    var buf := joined + seq(allLen - |joined|, _ => NUL);
    forall k | 0 <= k < allLen {
      str[k] := buf[k];
    }
    str[allLen] := NUL;
    TextIs(str[..], joined);
    return true;
  }

  /** How DYAD makes a full path, on the producer's side and on the consumer's: the managed directory copied into a zeroed
      buffer, as much of it as fits, and the relative path joined to it. */
  method FullPath(managed: string, upath: string) returns (ok: bool, path: array<char>)
    requires IsText(managed) && IsText(upath)
    ensures fresh(path) && path.Length == PATH_MAX + 1 && Terminated(path[..])
    ensures ok <==> |managed| + |upath| + 2 <= PATH_MAX
    ensures ok ==> Text(path[..]) == Join(managed, upath, "/")
    ensures !ok ==> Text(path[..]) == managed[..if |managed| < PATH_MAX - 1 then |managed| else PATH_MAX - 1]
    ensures forall full, n | Extract(managed, full, "/", n) == Some(upath) ::
              (|full| + 2 <= PATH_MAX ==> ok) && (ok ==> Text(path[..]) == full)
  {
    path := new char[PATH_MAX + 1](_ => NUL);
    var n := if |managed| < PATH_MAX - 1 then |managed| else PATH_MAX - 1;
    forall k | 0 <= k < n {
      path[k] := managed[k];
    }
    TextIs(path[..], managed[..n]);
    PartsAreOf(managed, upath, "/");
    assert n == |managed| ==> managed[..n] == managed;
    ok := ConcatStr(path, upath, "/", PATH_MAX);
  }

  /** The tests of extract_user_path: the length of the relative path, if there is one. */
  method FindUserPath(prefix: string, full: string, delim: string, capacity: nat) returns (ok: bool, uLen: nat)
    ensures ok <==> Extract(prefix, full, delim, capacity).Some?
    ensures ok ==> uLen < capacity && uLen <= |full|
    ensures ok ==> Extract(prefix, full, delim, capacity) == Some(full[|full| - uLen..])
  {
    ok, uLen := false, 0;
    var starts := Matches(full, 0, prefix);
    assert |prefix| <= |full| ==> full[0..|prefix|] == full[..|prefix|];
    assert starts <==> prefix <= full;
    if !starts {
      return;
    }
    if |full| > PATH_MAX || |delim| > PATH_MAX || |prefix| > PATH_MAX {
      return;
    }
    var prefixLen := TrimmedLength(prefix, delim);
    if |full| <= prefixLen + |delim| {
      return;
    }
    var delimited := Matches(full, prefixLen, delim);
    if !delimited {
      return;
    }
    uLen := |full| - prefixLen - |delim|;
    ok := uLen + 1 <= capacity;
  }

  /** extract_user_path: writes the characters of the relative path and nothing else, no terminator either. */
  method ExtractUserPath(prefix: string, full: string, delim: string, upath: array<char>, capacity: nat)
    returns (ok: bool)
    requires capacity <= upath.Length
    modifies upath
    ensures ok <==> Extract(prefix, full, delim, capacity).Some?
    ensures !ok ==> upath[..] == old(upath[..])
    ensures ok ==>
              var u := Extract(prefix, full, delim, capacity).value;
              |u| < capacity && upath[..|u|] == u && upath[|u|..] == old(upath[|u|..])
  {
    var uLen;
    ok, uLen := FindUserPath(prefix, full, delim, capacity);
    if ok {
      forall k | 0 <= k < uLen {
        upath[k] := full[|full| - uLen + k];
      }
    }
  }

  /** Read as a C string, the buffer then holds the relative path exactly when it had a terminator there before. */
  lemma ExtractedTextIff(before: string, after: string, u: string)
    requires IsText(u) && |u| < |before| == |after| && after[..|u|] == u && after[|u|..] == before[|u|..]
    ensures (Terminated(after) && Text(after) == u) <==> before[|u|] == NUL
  {
    assert after[|u|] == after[|u|..][0] == before[|u|];
    if before[|u|] == NUL {
      TextIs(after, u);
    }
  }
}
