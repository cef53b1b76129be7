/** gen_path_key: the key under which a file is published, "h1.h2...hN.path" with one hexadecimal bin per level. */
module PathKey {
  import opened Paths
  import opened PathHash

  const SEED_BASE: nat := 57
  const WORD32: nat := 0x1_0000_0000

  type Word32 = w: nat | w < WORD32

  /** The four words that MurmurHash3_x64_128 leaves of a buffer and a seed, combined by exclusive or. */
  type KeyHash = (string, nat) -> Word32

  const KEY_SEEDS: seq<nat> := [104677, 104681, 104683, 104693, 104701, 104707, 104711, 104717, 104723, 104729]

  function Digit(n: nat): char
    requires n < 16
  {
    "0123456789abcdef"[n]
  }

  /** "%x" */
  function Hex(n: nat): string {
    if n < 16 then [Digit(n)] else Hex(n / 16) + [Digit(n % 16)]
  }

  /** The seed carried into level d: the base and the seeds of all levels before it, in 32-bit arithmetic. */
  function SeedBefore(d: nat): nat {
    if d == 0 then SEED_BASE else (SeedBefore(d - 1) + KEY_SEEDS[(d - 1) % 10]) % WORD32
  }

  lemma AddTwice(a: nat, k: nat, t: nat)
    ensures ((a + t) % WORD32 + k) % WORD32 == ((a + k) % WORD32 + t) % WORD32
  {
  }

  lemma {:induction false} SeedsGoRound(d: nat)
    ensures SeedBefore(d + 10) == (SeedBefore(d) + 1047022) % WORD32
  {
    if d == 0 {
      FirstSeeds();
    } else {
      SeedsGoRound(d - 1);
      AddTwice(SeedBefore(d - 1), KEY_SEEDS[(d - 1) % 10], 1047022);
      assert (d + 9) % 10 == (d - 1) % 10;
    }
  }

  lemma FirstSeeds()
    ensures SeedBefore(0) == 57
    ensures [SeedBefore(1), SeedBefore(2), SeedBefore(3), SeedBefore(4), SeedBefore(5)]
         == [104734, 209415, 314098, 418791, 523492]
    ensures [SeedBefore(6), SeedBefore(7), SeedBefore(8), SeedBefore(9), SeedBefore(10)]
         == [628199, 732910, 837627, 942350, 1047079]
  {
    assert SeedBefore(1) == 104734 && SeedBefore(2) == 209415 && SeedBefore(3) == 314098;
    assert SeedBefore(4) == 418791 && SeedBefore(5) == 523492 && SeedBefore(6) == 628199;
    assert SeedBefore(7) == 732910 && SeedBefore(8) == 837627 && SeedBefore(9) == 942350;
  }

  /** The seeds of the first ten levels, and those of all others: the carried seed goes round the table. */
  lemma SeedsAre()
    ensures SeedBefore(0) == 57
    ensures [SeedBefore(1), SeedBefore(2), SeedBefore(3), SeedBefore(4), SeedBefore(5)]
         == [104734, 209415, 314098, 418791, 523492]
    ensures [SeedBefore(6), SeedBefore(7), SeedBefore(8), SeedBefore(9), SeedBefore(10)]
         == [628199, 732910, 837627, 942350, 1047079]
    ensures forall d: nat :: SeedBefore(d + 10) == (SeedBefore(d) + 1047022) % 0x1_0000_0000
  {
    FirstSeeds();
    forall d: nat
      ensures SeedBefore(d + 10) == (SeedBefore(d) + 1047022) % 0x1_0000_0000
    {
      SeedsGoRound(d);
    }
  }

  /** The bin of a path at each level. (Without a width there are no levels.) */
  function BinAt(hash: KeyHash, str: string, width: nat): nat -> nat {
    (d: nat) => if width == 0 then 0 else hash(Padded(str), SeedBefore(d + 1)) % width
  }

  /** The first `depth` bins. */
  function Bins(binAt: nat -> nat, depth: nat): (bins: seq<nat>)
    ensures |bins| == depth
  {
    if depth == 0 then [] else Bins(binAt, depth - 1) + [binAt(depth - 1)]
  }

  /** One level of a key: its bin in hexadecimal, ended by a dot. */
  function Segment(bin: nat): string {
    Hex(bin) + "."
  }

  /** The dot-ended segments of a key. */
  function Levels(bins: seq<nat>): string {
    if bins == [] then "" else Levels(bins[..|bins| - 1]) + Segment(bins[|bins| - 1])
  }

  /** The whole key. */
  function Key(hash: KeyHash, str: string, depth: nat, width: nat): string {
    Levels(Bins(BinAt(hash, str, width), depth)) + str
  }

  /** As much of a text as fits in `room` characters with its terminator. */
  function Cut(text: string, room: nat): (cut: string)
    requires 0 < room
    ensures cut <= text && |cut| < room && (|text| < room ==> cut == text) && (|text| >= room ==> |cut| + 1 == room)
  {
    if |text| < room then text else text[..room - 1]
  }

  /** snprintf ("%s") at an offset: as much of the text as fits, and a terminator. */
  method PrintAt(buffer: array<char>, at: nat, len: nat, text: string)
    requires at < len <= buffer.Length
    modifies buffer
    ensures var cut := Cut(text, len - at);
      && buffer[..at + |cut|] == old(buffer[..at]) + cut && buffer[at + |cut|] == NUL
  {
    var cut := Cut(text, len - at);
    forall k | 0 <= k < |cut| {
      buffer[at + k] := cut[k];
    }
    buffer[at + |cut|] := NUL;
  }

  /** One round of hashing: the seed moves on, and gives the bin of the level. */
  method NextBin(hash: KeyHash, str: string, strLong: string, d: nat, seed: nat, width: nat)
    returns (next: nat, bin: nat)
    requires 0 < width && strLong == Padded(str) && seed == SeedBefore(d)
    ensures next == SeedBefore(d + 1) && bin == BinAt(hash, str, width)(d)
  {
    next := (seed + KEY_SEEDS[d % 10]) % WORD32;
    bin := hash(strLong, next) % width;
  }

  /** snprintf ("%x.") at an offset: the new offset, which is in the buffer exactly if the segment is. */
  method PrintSegment(buffer: array<char>, at: nat, len: nat, segment: string) returns (next: nat)
    requires at < len <= buffer.Length
    modifies buffer
    ensures next == at + |segment|
    ensures next < len ==> buffer[..next] == old(buffer[..at]) + segment
  {
    PrintAt(buffer, at, len, segment);
    next := at + |segment|;
  }

  /** The loop of gen_path_key: prints one level after the other, and stops when the buffer is full. */
  method PrintLevels(hash: KeyHash, str: string, pathKey: array<char>, len: nat, depth: nat, width: nat)
    returns (ok: bool, cx: nat)
    requires (0 < depth ==> 0 < width) && 0 < len <= pathKey.Length
    modifies pathKey
    ensures var levels := Levels(Bins(BinAt(hash, str, width), depth));
      && (ok <==> |levels| < len)
      && (ok ==> cx == |levels| && pathKey[..cx] == levels)
  {
    var strLong := Padded(str);
    ghost var binAt := BinAt(hash, str, width);
    var seed := SEED_BASE;
    var d: nat;
    cx, d := 0, 0;
    while d < depth
      invariant d <= depth && cx < len && seed == SeedBefore(d)
      invariant pathKey[..cx] == Levels(Bins(binAt, d))
    {
      var bin;
      seed, bin := NextBin(hash, str, strLong, d, seed, width);
      BinsGrow(binAt, d, depth);
      cx := PrintSegment(pathKey, cx, len, Segment(bin));
      if cx >= len {
        return false, cx;
      }
      d := d + 1;
    }
    ok := true;
  }

  /** The path behind the levels, as much of it as fits. */
  method PrintPath(buffer: array<char>, cx: nat, len: nat, str: string, ghost levels: string)
    requires cx < len <= buffer.Length && buffer[..cx] == levels && IsText(levels) && IsText(str)
    modifies buffer
    ensures Terminated(buffer[..]) && Text(buffer[..]) == Cut(levels + str, len)
  {
    PrintAt(buffer, cx, len, str);
    CutBehind(levels, str, len);
    TextsJoin(levels, str);
    TextIs(buffer[..], levels + Cut(str, len - cx));
  }

  /** gen_path_key: fails when there is nothing to print or the levels do not fit; the path behind them is cut off
      silently. */
  method GenPathKey(hash: KeyHash, str: string, pathKey: array<char>, len: nat, depth: nat, width: nat) returns (rc: int)
    requires (0 < depth ==> 0 < width) && len <= pathKey.Length && IsText(str)
    modifies pathKey
    ensures rc == 0 || rc == -1
    ensures rc == 0 <==> 0 < len && str != "" && |Levels(Bins(BinAt(hash, str, width), depth))| < len
    ensures rc == 0 ==> Terminated(pathKey[..]) && Text(pathKey[..]) == Cut(Key(hash, str, depth, width), len)
  {
    if len == 0 || |str| == 0 {
      return -1;
    }
    pathKey[0] := NUL;
    var ok, cx := PrintLevels(hash, str, pathKey, len, depth, width);
    if !ok {
      return -1;
    }
    LevelsAreText(Bins(BinAt(hash, str, width), depth));
    PrintPath(pathKey, cx, len, str, Levels(Bins(BinAt(hash, str, width), depth)));
    return 0;
  }

  /** No level that was printed is taken back. */
  lemma {:induction false} LevelsGrow(bins: seq<nat>, d: nat)
    requires d <= |bins|
    ensures |Levels(bins[..d])| <= |Levels(bins)|
  {
    if d < |bins| {
      assert bins[..|bins| - 1][..d] == bins[..d];
      LevelsGrow(bins[..|bins| - 1], d);
    } else {
      assert bins[..d] == bins;
    }
  }

  lemma {:induction false} BinsPrefix(binAt: nat -> nat, d: nat, depth: nat)
    requires d <= depth
    ensures Bins(binAt, depth)[..d] == Bins(binAt, d)
  {
    if d < depth {
      BinsPrefix(binAt, d, depth - 1);
    }
  }

  lemma LevelsSnoc(bins: seq<nat>, bin: nat)
    ensures Levels(bins + [bin]) == Levels(bins) + Segment(bin)
  {
    assert (bins + [bin])[..|bins|] == bins;
  }

  lemma BinsGrow(binAt: nat -> nat, d: nat, depth: nat)
    requires d < depth
    ensures Levels(Bins(binAt, d + 1))
         == Levels(Bins(binAt, d)) + Segment(binAt(d))
    ensures |Levels(Bins(binAt, d + 1))| <= |Levels(Bins(binAt, depth))|
  {
    LevelsSnoc(Bins(binAt, d), binAt(d));
    BinsPrefix(binAt, d + 1, depth);
    LevelsGrow(Bins(binAt, depth), d + 1);
  }

  lemma TextsJoin(a: string, b: string)
    requires IsText(a) && IsText(b)
    ensures forall n | 0 <= n <= |b| :: IsText(a + b[..n])
    ensures IsText(a + b)
  {
  }

  /** A hexadecimal number has neither a dot nor a terminator in it. */
  lemma {:induction false} HexHasNoDot(n: nat)
    ensures '.' !in Hex(n) && NUL !in Hex(n) && Hex(n) != ""
  {
    assert '.' !in "0123456789abcdef" && NUL !in "0123456789abcdef";
    if n >= 16 {
      HexHasNoDot(n / 16);
    }
  }

  lemma {:induction false} LevelsAreText(bins: seq<nat>)
    ensures IsText(Levels(bins))
  {
    if bins != [] {
      LevelsAreText(bins[..|bins| - 1]);
      HexHasNoDot(bins[|bins| - 1]);
    }
  }

  // ---------------------------------------------------------------- parsing

  function DigitValue(c: char): nat
    requires '0' <= c <= '9' || 'a' <= c <= 'f'
  {
    if c <= '9' then c as int - '0' as int else 10 + (c as int - 'a' as int)
  }

  predicate IsHex(s: string) {
    forall i | 0 <= i < |s| :: '0' <= s[i] <= '9' || 'a' <= s[i] <= 'f'
  }

  /** The number that hexadecimal digits stand for. */
  function ReadHex(s: string): nat
    requires IsHex(s)
  {
    if s == "" then 0 else ReadHex(s[..|s| - 1]) * 16 + DigitValue(s[|s| - 1])
  }

  /** Printing a number and reading it are inverse, and the print has no leading zero. */
  lemma {:induction false} HexReads(n: nat)
    ensures IsHex(Hex(n)) && ReadHex(Hex(n)) == n && Hex(n) != "" && (Hex(n)[0] == '0' ==> n == 0)
  {
    DigitReads(n % 16);
    if n < 16 {
      assert Hex(n)[..0] == "";
    } else {
      HexReads(n / 16);
      assert Hex(n)[..|Hex(n)| - 1] == Hex(n / 16);
    }
  }

  lemma DigitReads(n: nat)
    requires n < 16
    ensures ('0' <= Digit(n) <= '9' || 'a' <= Digit(n) <= 'f') && DigitValue(Digit(n)) == n
    ensures Digit(n) == '0' ==> n == 0
  {
  }

  /** What comes before the first dot. */
  function UpToDot(s: string): string {
    if s == "" || s[0] == '.' then "" else [s[0]] + UpToDot(s[1..])
  }

  /** What follows the first dot. */
  function AfterDot(s: string): string {
    if s == "" then "" else if s[0] == '.' then s[1..] else AfterDot(s[1..])
  }

  /** What follows the first `depth` dots: how a key is read back. */
  function DropLevels(s: string, depth: nat): string
    decreases depth
  {
    if depth == 0 then s else DropLevels(AfterDot(s), depth - 1)
  }

  lemma {:induction false} AfterDotText(text: string, rest: string)
    requires '.' !in text
    ensures AfterDot(text + "." + rest) == rest
  {
    if text == "" {
      assert text + "." + rest == "." + rest;
    } else {
      assert (text + "." + rest)[1..] == text[1..] + "." + rest;
      AfterDotText(text[1..], rest);
    }
  }

  lemma AfterSegment(bin: nat, rest: string)
    ensures AfterDot(Segment(bin) + rest) == rest
  {
    HexHasNoDot(bin);
    AfterDotText(Hex(bin), rest);
  }

  lemma {:induction false} DropAppend(s: string, depth: nat)
    ensures DropLevels(s, depth + 1) == AfterDot(DropLevels(s, depth))
    decreases depth
  {
    if depth != 0 {
      DropAppend(AfterDot(s), depth - 1);
    }
  }

  lemma {:induction false} DropOwnLevels(bins: seq<nat>, rest: string)
    ensures DropLevels(Levels(bins) + rest, |bins|) == rest
  {
    if bins == [] {
      assert "" + rest == rest;
    } else {
      var last := |bins| - 1;
      assert Levels(bins) + rest == Levels(bins[..last]) + (Segment(bins[last]) + rest);
      DropOwnLevels(bins[..last], Segment(bins[last]) + rest);
      DropAppend(Levels(bins) + rest, last);
      AfterSegment(bins[last], rest);
    }
  }

  /** Cutting behind the levels cuts the path. */
  lemma CutBehind(levels: string, str: string, len: nat)
    requires |levels| < len
    ensures Cut(levels + str, len) == levels + Cut(str, len - |levels|)
  {
  }

  /** A cut key is read back as the cut path. */
  lemma CutIsReadBack(bins: seq<nat>, str: string, len: nat)
    requires |Levels(bins)| < len
    ensures DropLevels(Cut(Levels(bins) + str, len), |bins|) == Cut(str, len - |Levels(bins)|)
  {
    CutBehind(Levels(bins), str, len);
    DropOwnLevels(bins, Cut(str, len - |Levels(bins)|));
  }

  /** Dropping the segments of a whole key recovers the path. */
  lemma KeyParses(hash: KeyHash, str: string, depth: nat, width: nat)
    ensures DropLevels(Key(hash, str, depth, width), depth) == str
  {
    DropOwnLevels(Bins(BinAt(hash, str, width), depth), str);
  }

  lemma {:induction false} UpToDotText(text: string, rest: string)
    requires '.' !in text
    ensures UpToDot(text + "." + rest) == text
  {
    if text != "" {
      assert (text + "." + rest)[1..] == text[1..] + "." + rest;
      UpToDotText(text[1..], rest);
    }
  }

  lemma Regroup(a: string, b: string, c: string, d: string)
    ensures (a + (b + c)) + d == a + (b + (c + d))
  {
  }

  lemma {:induction false} LevelsSplit(bins: seq<nat>, d: nat) returns (rest: string)
    requires d < |bins|
    ensures Levels(bins) == Levels(bins[..d]) + (Segment(bins[d]) + rest)
  {
    var last := |bins| - 1;
    if d == last {
      rest := "";
    } else {
      var inner := LevelsSplit(bins[..last], d);
      rest := inner + Segment(bins[last]);
      assert bins[..last][..d] == bins[..d] && bins[..last][d] == bins[d];
      assert Levels(bins) == Levels(bins[..last]) + Segment(bins[last]);
      Regroup(Levels(bins[..d]), Segment(bins[d]), inner, Segment(bins[last]));
    }
  }

  lemma LevelRead(bins: seq<nat>, str: string, d: nat)
    requires d < |bins|
    ensures UpToDot(DropLevels(Levels(bins) + str, d)) == Hex(bins[d])
  {
    var rest := LevelsSplit(bins, d);
    var behind := Hex(bins[d]) + "." + (rest + str);
    assert Levels(bins) + str == Levels(bins[..d]) + behind;
    DropOwnLevels(bins[..d], behind);
    HexHasNoDot(bins[d]);
    UpToDotText(Hex(bins[d]), rest + str);
  }

  /** What a key says: its level d, read back, is the hash of the padded path under that level's seed, modulo the width. */
  lemma KeyTellsBins(hash: KeyHash, str: string, depth: nat, width: nat, d: nat)
    requires 0 < width && d < depth
    ensures var level := UpToDot(DropLevels(Key(hash, str, depth, width), d));
      IsHex(level) && ReadHex(level) == hash(Padded(str), SeedBefore(d + 1)) % width
  {
    var binAt := BinAt(hash, str, width);
    var bins := Bins(binAt, depth);
    BinsPrefix(binAt, d + 1, depth);
    assert bins[d] == bins[..d + 1][d] == binAt(d);
    LevelRead(bins, str, d);
    HexReads(bins[d]);
  }

  /** Two sides compute the same whole key exactly when their relative paths are the same. */
  lemma KeysEqualIff(hash: KeyHash, a: string, b: string, depth: nat, width: nat)
    ensures Key(hash, a, depth, width) == Key(hash, b, depth, width) <==> a == b
  {
    KeyParses(hash, a, depth, width);
    KeyParses(hash, b, depth, width);
  }

  /** A successful call leaves the whole key, so that the path can be read back, exactly when the whole key fits. */
  lemma StoredKeyParsesIff(hash: KeyHash, str: string, depth: nat, width: nat, len: nat)
    requires |Levels(Bins(BinAt(hash, str, width), depth))| < len
    ensures DropLevels(Cut(Key(hash, str, depth, width), len), depth) == str
       <==> |Key(hash, str, depth, width)| < len
  {
    CutIsReadBack(Bins(BinAt(hash, str, width), depth), str, len);
    KeyParses(hash, str, depth, width);
  }

  /** A larger number has no fewer digits. */
  lemma {:induction false} HexGrows(m: nat, n: nat)
    requires m <= n
    ensures |Hex(m)| <= |Hex(n)|
  {
    if m >= 16 {
      HexGrows(m / 16, n / 16);
    }
  }

  lemma OneMore(n: nat, k: nat)
    requires 0 < n
    ensures n * k == (n - 1) * k + k
  {
  }

  lemma {:induction false} LevelsAtMost(bins: seq<nat>, top: nat)
    requires forall i | 0 <= i < |bins| :: bins[i] <= top
    ensures |Levels(bins)| <= |bins| * |Segment(top)|
  {
    if bins != [] {
      var last := |bins| - 1;
      LevelsAtMost(bins[..last], top);
      HexGrows(bins[last], top);
      OneMore(|bins|, |Segment(top)|);
    }
  }

  lemma {:induction false} LevelsExactly(bins: seq<nat>, top: nat)
    requires forall i | 0 <= i < |bins| :: bins[i] == top
    ensures |Levels(bins)| == |bins| * |Segment(top)|
  {
    if bins != [] {
      var last := |bins| - 1;
      LevelsExactly(bins[..last], top);
      assert Segment(bins[last]) == Segment(top);
      OneMore(|bins|, |Segment(top)|);
    }
  }

  /** The most room that a key may need: that of the largest bin at every level. */
  function KeyRoom(str: string, depth: nat, width: nat): nat
    requires 0 < width
  {
    |str| + depth * |Segment(width - 1)|
  }

  /** The hash whose bins are all the largest. */
  function ConstantHash(w: Word32): KeyHash {
    (_, _) => w
  }

  lemma {:induction false} BinsBelow(hash: KeyHash, str: string, depth: nat, width: nat)
    requires 0 < width
    ensures forall i | 0 <= i < depth :: Bins(BinAt(hash, str, width), depth)[i] <= width - 1
  {
    if depth > 0 {
      BinsBelow(hash, str, depth - 1, width);
      assert BinAt(hash, str, width)(depth - 1) <= width - 1;
    }
  }

  lemma {:induction false} ConstantBins(binAt: nat -> nat, depth: nat, top: nat)
    requires forall d: nat :: binAt(d) == top
    ensures forall i | 0 <= i < depth :: Bins(binAt, depth)[i] == top
  {
    if depth > 0 {
      ConstantBins(binAt, depth - 1, top);
    }
  }

  lemma KeyAtMost(hash: KeyHash, str: string, depth: nat, width: nat)
    requires 0 < width
    ensures |Key(hash, str, depth, width)| <= KeyRoom(str, depth, width)
  {
    BinsBelow(hash, str, depth, width);
    LevelsAtMost(Bins(BinAt(hash, str, width), depth), width - 1);
  }

  lemma LargestKey(str: string, depth: nat, top: Word32)
    ensures |Key(ConstantHash(top), str, depth, top + 1)| == KeyRoom(str, depth, top + 1)
  {
    var binAt := BinAt(ConstantHash(top), str, top + 1);
    ConstantBins(binAt, depth, top);
    LevelsExactly(Bins(binAt, depth), top);
  }

  /** What a caller can tell beforehand: a key fits whatever the hash is, and so can be read back, exactly when the
      buffer has the room for the largest bin at every level. */
  lemma FitsForEveryHashIff(str: string, depth: nat, width: nat, len: nat)
    requires 0 < width <= WORD32
    ensures (forall hash: KeyHash :: |Key(hash, str, depth, width)| < len) <==> KeyRoom(str, depth, width) < len
  {
    LargestKey(str, depth, width - 1);
    forall hash: KeyHash
      ensures |Key(hash, str, depth, width)| <= KeyRoom(str, depth, width)
    {
      KeyAtMost(hash, str, depth, width);
    }
  }

  /** Two texts of two parts each, whose second parts are told by the whole. */
  lemma SameParts(a: string, tailA: string, b: string, tailB: string)
    requires a + tailA == b + tailB ==> tailA == tailB
    ensures a + tailA == b + tailB <==> a == b && tailA == tailB
  {
    if tailA == tailB && a + tailA == b + tailB {
      assert a == (a + tailA)[..|a|];
      assert b == (b + tailB)[..|b|];
    }
  }

  lemma CutTextsAgree(levelsA: string, a: string, levelsB: string, b: string, len: nat)
    requires |levelsA| < len && |levelsB| < len
    requires var tailA, tailB := Cut(a, len - |levelsA|), Cut(b, len - |levelsB|);
      levelsA + tailA == levelsB + tailB ==> tailA == tailB
    ensures Cut(levelsA + a, len) == Cut(levelsB + b, len)
       <==> levelsA == levelsB && Cut(a, len - |levelsA|) == Cut(b, len - |levelsB|)
  {
    CutBehind(levelsA, a, len);
    CutBehind(levelsB, b, len);
    SameParts(levelsA, Cut(a, len - |levelsA|), levelsB, Cut(b, len - |levelsB|));
  }

  /** What is read back from equal texts is equal. */
  lemma ReadBackAlike(binsA: seq<nat>, tailA: string, binsB: seq<nat>, tailB: string)
    requires |binsA| == |binsB|
    ensures Levels(binsA) + tailA == Levels(binsB) + tailB ==> tailA == tailB
  {
    DropOwnLevels(binsA, tailA);
    DropOwnLevels(binsB, tailB);
  }

  lemma CutKeysAgree(binsA: seq<nat>, binsB: seq<nat>, a: string, b: string, len: nat)
    requires |binsA| == |binsB| && |Levels(binsA)| < len && |Levels(binsB)| < len
    ensures Cut(Levels(binsA) + a, len) == Cut(Levels(binsB) + b, len)
       <==> Levels(binsA) == Levels(binsB) && Cut(a, len - |Levels(binsA)|) == Cut(b, len - |Levels(binsB)|)
  {
    ReadBackAlike(binsA, Cut(a, len - |Levels(binsA)|), binsB, Cut(b, len - |Levels(binsB)|));
    CutTextsAgree(Levels(binsA), a, Levels(binsB), b, len);
  }

  /** Two successful calls leave the same key exactly when all levels agree and the paths agree as far as they were
      printed. */
  lemma StoredKeysEqualIff(hash: KeyHash, a: string, b: string, depth: nat, width: nat, len: nat)
    requires |Levels(Bins(BinAt(hash, a, width), depth))| < len
    requires |Levels(Bins(BinAt(hash, b, width), depth))| < len
    ensures Cut(Key(hash, a, depth, width), len) == Cut(Key(hash, b, depth, width), len)
       <==> var levelsA, levelsB := Levels(Bins(BinAt(hash, a, width), depth)), Levels(Bins(BinAt(hash, b, width), depth));
            levelsA == levelsB && Cut(a, len - |levelsA|) == Cut(b, len - |levelsB|)
  {
    CutKeysAgree(Bins(BinAt(hash, a, width), depth), Bins(BinAt(hash, b, width), depth), a, b, len);
  }

  /** So paths that differ only behind the end of the buffer share a key: at depth 0, two of them in four characters. */
  lemma CutKeysCollide(hash: KeyHash, width: nat)
    ensures Cut(Key(hash, "data0", 0, width), 5) == Cut(Key(hash, "data1", 0, width), 5)
  {
    assert Key(hash, "data0", 0, width) == "data0" && Key(hash, "data1", 0, width) == "data1";
  }
}
