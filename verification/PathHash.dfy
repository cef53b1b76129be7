/** The hash test that cmp_canonical_path_prefix puts in front of the string comparison, with two separately written
    routines that pad a path to the hashed buffer: one for whole managed paths, one for prefixes of candidate paths.
    The hash itself is a parameter: any function of the buffer and the seed. */
module PathHash {
  import opened Files
  import opened Paths

  const SEED: nat := 104723
  const PAD_LENGTH: nat := 128
  const DELIM := "/"

  /** The four words that MurmurHash3_x64_128 leaves. */
  datatype Words = Words(w0: bv32, w1: bv32, w2: bv32, w3: bv32)

  type Hash = (string, nat) -> Words

  function Fold(w: Words): bv32 {
    (w.w0 ^ w.w1 ^ w.w2 ^ w.w3) + 1
  }

  /** Short strings are filled up to 128 characters. */
  function Padded(s: string): (r: string)
    ensures |r| == (if |s| < 128 then 128 else |s|) && s <= r && forall i | |s| <= i < |r| :: r[i] == '@'
  {
    if |s| < PAD_LENGTH then s + seq(PAD_LENGTH - |s|, _ => '@') else s
  }

  /** What hash_str returns. */
  function StrHash(hash: Hash, s: string): bv32 {
    if s == "" then 0 else Fold(hash(Padded(s), SEED))
  }

  /** hash_str */
  method HashStr(hash: Hash, str: string) returns (h: bv32)
    ensures h == StrHash(hash, str) == if str == "" then 0 else Fold(hash(Padded(str), 104723))
  {
    var strLen := |str|;
    if strLen == 0 {
      return 0;
    }
    var strLong := str;
    if strLen < PAD_LENGTH {
      var buf := new char[256](_ => NUL);
      forall k | 0 <= k < strLen {
        buf[k] := str[k];
      }
      forall k | strLen <= k < PAD_LENGTH {
        buf[k] := '@';
      }
      buf[PAD_LENGTH] := NUL;
      strLong := buf[..PAD_LENGTH];
      assert strLong == Padded(str);
    }
    return Fold(hash(strLong, SEED));
  }

  /** hash_path_prefix: the hash of the first len characters; 0 when there are fewer, or for an empty prefix. */
  method HashPathPrefix(hash: Hash, str: string, len: nat) returns (h: bv32)
    ensures h == if len == 0 || |str| < len then 0 else StrHash(hash, str[..len])
  {
    if len == 0 {
      return 0;
    }
    var strLen := |str|;
    if strLen < len {
      return 0;
    }
    strLen := len;
    var strLong := str[..strLen];
    if len < PAD_LENGTH {
      var buf := new char[256](_ => NUL);
      forall k | 0 <= k < len {
        buf[k] := str[k];
      }
      forall k | len <= k < PAD_LENGTH {
        buf[k] := '@';
      }
      buf[PAD_LENGTH] := NUL;
      strLong := buf[..PAD_LENGTH];
      assert strLong == Padded(str[..len]);
    }
    return Fold(hash(strLong, SEED));
  }

  /** What the context stores about a managed path: the path itself and its canonical form, each with its length and
      hash. A canonical form that is the same path is stored as length 0. */
  datatype Managed = Managed(prefix: string, prefixLen: nat, prefixHash: bv32,
                             canonical: string, canonicalLen: nat, canonicalHash: bv32)

  predicate WellFormed(hash: Hash, m: Managed) {
    && m.prefixLen == |m.prefix| && m.prefixHash == StrHash(hash, m.prefix)
    && m.canonicalLen == |m.canonical| && (0 < m.canonicalLen ==> m.canonicalHash == StrHash(hash, m.canonical))
  }

  /** The matcher with no hash test: the path against the managed path and its canonical form, then the path's own
      canonical form, if it has one, against both. */
  function Match(m: Managed, path: string, realPath: Option<string>, capacity: nat): Option<string> {
    var first := Extract(m.prefix, path, DELIM, capacity);
    if first.Some? then first
    else
      var second := if 0 < m.canonicalLen then Extract(m.canonical, path, DELIM, capacity) else None;
      if second.Some? then second
      else if realPath.None? then None
      else
        var third := Extract(m.prefix, realPath.value, DELIM, capacity);
        if third.Some? then third
        else if 0 < m.canonicalLen then Extract(m.canonical, realPath.value, DELIM, capacity)
        else None
  }

  /** The path is the join of a managed directory and a non-empty relative path u, and both fit. */
  predicate IsPart(managed: string, u: string, path: string, capacity: nat) {
    u != "" && path == Join(managed, u, "/") && |path| <= PATH_MAX && |u| < capacity
  }

  lemma ExtractIsPart(managed: string, path: string, capacity: nat, u: string)
    ensures Extract(managed, path, DELIM, capacity) == Some(u) <==> IsPart(managed, u, path, capacity)
  {
    ExtractIff(managed, path, DELIM, capacity, u);
  }

  /** What a match is: the path, or its canonical form, lies below the managed directory or its canonical form, and the
      answer is the relative path there. It is found whenever there is one, in the order path before canonical path, and
      managed directory before its canonical form. */
  lemma MatchIff(m: Managed, path: string, realPath: Option<string>, capacity: nat, u: string)
    ensures IsPart(m.prefix, u, path, capacity) ==> Match(m, path, realPath, capacity) == Some(u)
    ensures 0 < m.canonicalLen && IsPart(m.canonical, u, path, capacity) ==>
              var r := Match(m, path, realPath, capacity);
              r.Some? && (r == Some(u) || IsPart(m.prefix, r.value, path, capacity))
    ensures realPath.Some? && IsPart(m.prefix, u, realPath.value, capacity) ==>
              var r := Match(m, path, realPath, capacity);
              r.Some? && (r == Some(u) || IsPart(m.prefix, r.value, path, capacity)
                          || (0 < m.canonicalLen && IsPart(m.canonical, r.value, path, capacity)))
    ensures realPath.Some? && 0 < m.canonicalLen && IsPart(m.canonical, u, realPath.value, capacity) ==>
              Match(m, path, realPath, capacity).Some?
    ensures Match(m, path, realPath, capacity) == Some(u) ==>
              || IsPart(m.prefix, u, path, capacity)
              || (0 < m.canonicalLen && IsPart(m.canonical, u, path, capacity))
              || (realPath.Some? && IsPart(m.prefix, u, realPath.value, capacity))
              || (realPath.Some? && 0 < m.canonicalLen && IsPart(m.canonical, u, realPath.value, capacity))
  {
    var r := Match(m, path, realPath, capacity);
    ExtractIsPart(m.prefix, path, capacity, u);
    ExtractIsPart(m.canonical, path, capacity, u);
    if r.Some? {
      ExtractIsPart(m.prefix, path, capacity, r.value);
      ExtractIsPart(m.canonical, path, capacity, r.value);
    }
    if realPath.Some? {
      ExtractIsPart(m.prefix, realPath.value, capacity, u);
      ExtractIsPart(m.canonical, realPath.value, capacity, u);
    }
  }

  /** The hash test never rejects a path that the comparison would accept: an extracted path starts with the prefix,
      and the two padding routines build the same buffer from it. */
  lemma FilterIsTransparent(hash: Hash, prefix: string, path: string, capacity: nat)
    requires Extract(prefix, path, DELIM, capacity).Some?
    ensures |prefix| <= |path| && path[..|prefix|] == prefix
    ensures (if |prefix| == 0 || |path| < |prefix| then 0 else StrHash(hash, path[..|prefix|])) == StrHash(hash, prefix)
  {
  }

  /** One pass: the hash test, and only if it succeeds the comparison. */
  method FilteredExtract(hash: Hash, prefix: string, prefixLen: nat, prefixHash: bv32, path: string,
                         upath: array<char>, capacity: nat) returns (ok: bool)
    requires prefixLen == |prefix| && prefixHash == StrHash(hash, prefix) && capacity <= upath.Length
    modifies upath
    ensures ok <==> Extract(prefix, path, DELIM, capacity).Some?
    ensures !ok ==> upath[..] == old(upath[..])
    ensures ok ==>
              var u := Extract(prefix, path, DELIM, capacity).value;
              |u| < capacity && upath[..|u|] == u && upath[|u|..] == old(upath[|u|..])
  {
    ok := false;
    var pathHash := HashPathPrefix(hash, path, prefixLen);
    if pathHash == prefixHash {
      ok := ExtractUserPath(prefix, path, DELIM, upath, capacity);
    } else if Extract(prefix, path, DELIM, capacity).Some? {
      FilterIsTransparent(hash, prefix, path, capacity);
      assert false;
    }
  }

  /** cmp_canonical_path_prefix: the same answer and the same relative path as the matcher with no hash test. */
  method CmpCanonicalPathPrefix(hash: Hash, m: Managed, path: string, realPath: Option<string>, upath: array<char>,
                                capacity: nat) returns (ok: bool)
    requires WellFormed(hash, m) && capacity <= upath.Length
    modifies upath
    ensures ok <==> Match(m, path, realPath, capacity).Some?
    ensures !ok ==> upath[..] == old(upath[..])
    ensures ok ==>
              var u := Match(m, path, realPath, capacity).value;
              |u| < capacity && upath[..|u|] == u && upath[|u|..] == old(upath[|u|..])
  {
    ok := FilteredExtract(hash, m.prefix, m.prefixLen, m.prefixHash, path, upath, capacity);
    if ok {
      return;
    }
    if m.canonicalLen > 0 {
      ok := FilteredExtract(hash, m.canonical, m.canonicalLen, m.canonicalHash, path, upath, capacity);
      if ok {
        return;
      }
    }
    if realPath.None? {
      return;
    }
    ok := FilteredExtract(hash, m.prefix, m.prefixLen, m.prefixHash, realPath.value, upath, capacity);
    if ok {
      return;
    }
    if m.canonicalLen > 0 {
      ok := FilteredExtract(hash, m.canonical, m.canonicalLen, m.canonicalHash, realPath.value, upath, capacity);
    }
  }
}
