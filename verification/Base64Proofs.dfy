/** What the Base64 codec promises: when decoding undoes encoding, which inputs the decoder accepts, and when encoding
    gives an accepted input back. */
module Base64Proofs {
  import opened Files
  import opened Base64

  // ---------------------------------------------------------------- letters

  lemma LettersDiffer(alphabet: Bytes, i: bv8, j: bv8)
    requires IsAlphabet(alphabet) && i < j < 64
    ensures Letter(alphabet, i) != Letter(alphabet, j)
  {
    assert i as int < j as int;
  }

  lemma {:induction false} ValueOfLetter(alphabet: Bytes, n: bv8, i: bv8)
    requires IsAlphabet(alphabet) && i < n <= 64
    ensures ValueBelow(alphabet, n, Letter(alphabet, i)) == i
    decreases |alphabet|, n as int
  {
    if i != n - 1 {
      LettersDiffer(alphabet, i, n - 1);
      ValueOfLetter(alphabet, n - 1, i);
    }
  }

  lemma {:induction false} ValueUpTo(alphabet: Bytes, n: bv8, c: bv8)
    requires |alphabet| == 64 && n <= 64
    ensures ValueBelow(alphabet, n, c) != NO_VALUE ==>
              ValueBelow(alphabet, n, c) < n && Letter(alphabet, ValueBelow(alphabet, n, c)) == c
    ensures ValueBelow(alphabet, n, c) == NO_VALUE ==> forall i: bv8 | i < n :: Letter(alphabet, i) != c
    decreases |alphabet|, n as int
  {
    if n != 0 {
      ValueUpTo(alphabet, n - 1, c);
    }
  }

  /** Position i as an index value. */
  lemma Position(i: int) returns (v: bv8)
    requires 0 <= i < 64
    ensures v < 64 && v as int == i
  {
    v := 0;
    var k := 0;
    while k < i
      invariant 0 <= k <= i && v < 64 && v as int == k
    {
      v := v + 1;
      k := k + 1;
    }
  }

  lemma SixBitMeaning(alphabet: Bytes, c: bv8)
    requires |alphabet| == 64
    ensures c in alphabet <==> SixBit(alphabet, c) != NO_VALUE
    ensures c in alphabet ==> SixBit(alphabet, c) < 64 && Letter(alphabet, SixBit(alphabet, c)) == c
  {
    ValueUpTo(alphabet, 64, c);
    if c in alphabet {
      var i :| 0 <= i < 64 && alphabet[i] == c;
      var v := Position(i);
      assert Letter(alphabet, v) == c;
    }
  }

  /** Letters and values are inverse to each other. */
  lemma LetterValue(alphabet: Bytes, sixbit: bv8)
    requires IsAlphabet(alphabet) && sixbit < 64
    ensures SixBit(alphabet, Letter(alphabet, sixbit)) == sixbit && Letter(alphabet, sixbit) != PAD
  {
    ValueOfLetter(alphabet, 64, sixbit);
  }

  // ---------------------------------------------------------------- groups

  lemma Regroup(a: bv8, b: bv8, c: bv8)
    ensures Octet0(Sextet0(a), Sextet1(a, b)) == a
    ensures Octet1(Sextet1(a, b), Sextet2(b, c)) == b
    ensures Octet2(Sextet2(b, c), Sextet3(c)) == c
  {
  }

  lemma Ungroup(p: bv8, q: bv8, r: bv8, s: bv8)
    requires p < 64 && q < 64 && r < 64 && s < 64
    ensures Sextet0(Octet0(p, q)) == p && Sextet1(Octet0(p, q), Octet1(q, r)) == q
    ensures Sextet2(Octet1(q, r), Octet2(r, s)) == r && Sextet3(Octet2(r, s)) == s
  {
  }

  /** Four letters decode to the bytes of their values. */
  lemma QuartetOfLetters(alphabet: Bytes, p: bv8, q: bv8, r: bv8, s: bv8)
    requires IsAlphabet(alphabet) && p < 64 && q < 64 && r < 64 && s < 64
    ensures var letters := [Letter(alphabet, p), Letter(alphabet, q), Letter(alphabet, r), Letter(alphabet, s)];
      && PAD !in letters
      && DecodeQuartet(alphabet, letters) == Some([Octet0(p, q), Octet1(q, r), Octet2(r, s)])
  {
    LetterValue(alphabet, p);
    LetterValue(alphabet, q);
    LetterValue(alphabet, r);
    LetterValue(alphabet, s);
  }

  lemma TripletLetters(alphabet: Bytes, a: bv8, b: bv8, c: bv8)
    requires IsAlphabet(alphabet)
    ensures PAD !in EncodeTriplet(alphabet, a, b, c)
    ensures DecodeQuartet(alphabet, EncodeTriplet(alphabet, a, b, c)) == Some([a, b, c])
  {
    QuartetOfLetters(alphabet, Sextet0(a), Sextet1(a, b), Sextet2(b, c), Sextet3(c));
    Regroup(a, b, c);
  }

  /** A quartet decodes exactly when all its characters are letters. */
  lemma QuartetAccepted(alphabet: Bytes, s: Bytes)
    requires |alphabet| == 64 && |s| == 4
    ensures DecodeQuartet(alphabet, s).Some? <==> s[0] in alphabet && s[1] in alphabet && s[2] in alphabet && s[3] in alphabet
  {
    SixBitMeaning(alphabet, s[0]);
    SixBitMeaning(alphabet, s[1]);
    SixBitMeaning(alphabet, s[2]);
    SixBitMeaning(alphabet, s[3]);
  }

  lemma LettersOfValues(alphabet: Bytes, s: Bytes, p: bv8, q: bv8, r: bv8, v: bv8)
    requires |alphabet| == 64 && |s| == 4 && p < 64 && q < 64 && r < 64 && v < 64
    requires s == [Letter(alphabet, p), Letter(alphabet, q), Letter(alphabet, r), Letter(alphabet, v)]
    ensures EncodeTriplet(alphabet, Octet0(p, q), Octet1(q, r), Octet2(r, v)) == s
  {
    Ungroup(p, q, r, v);
  }

  /** Encoding what a quartet decoded to gives the quartet back. */
  lemma QuartetBack(alphabet: Bytes, s: Bytes)
    requires |alphabet| == 64 && |s| == 4 && DecodeQuartet(alphabet, s).Some?
    ensures var q := DecodeQuartet(alphabet, s).value;
      EncodeTriplet(alphabet, q[0], q[1], q[2]) == s
  {
    QuartetAccepted(alphabet, s);
    SixBitMeaning(alphabet, s[0]);
    SixBitMeaning(alphabet, s[1]);
    SixBitMeaning(alphabet, s[2]);
    SixBitMeaning(alphabet, s[3]);
    LettersOfValues(alphabet, s, SixBit(alphabet, s[0]), SixBit(alphabet, s[1]), SixBit(alphabet, s[2]),
                    SixBit(alphabet, s[3]));
  }

  lemma StripIs(src: Bytes, n: nat)
    requires n <= |src| && (n > 0 ==> src[n - 1] != PAD) && forall i | n <= i < |src| :: src[i] == PAD
    ensures Strip(src) == src[..n]
  {
    assert |Strip(src)| == n;
  }

  // ---------------------------------------------------------------- round trip

  /** One or two leftover bytes come back exactly when the alphabet has the letter that the decoder fills in. */
  lemma TailRoundTrip(alphabet: Bytes, src: Bytes)
    requires IsAlphabet(alphabet) && 1 <= |src| <= 2
    ensures DecodeTail(alphabet, EncodeTail(alphabet, src)) == if FILLER in alphabet then Some(src) else None
  {
    var b := if |src| == 2 then src[1] else 0;
    var t := EncodeTriplet(alphabet, src[0], b, 0);
    var n := |src| + 1;
    TripletLetters(alphabet, src[0], b, 0);
    StripIs(EncodeTail(alphabet, src), n);
    assert EncodeTail(alphabet, src)[..n] == t[..n];
    FilledQuartet(alphabet, t, n);
    assert [src[0], b, 0 as bv8][..n - 1] == src;
  }

  /** Overwriting the last letters of a quartet by the filler changes only the bytes that are thrown away. */
  lemma FilledQuartet(alphabet: Bytes, t: Bytes, n: nat)
    requires |alphabet| == 64 && |t| == 4 && 2 <= n <= 3 && DecodeQuartet(alphabet, t).Some?
    ensures var filled := DecodeQuartet(alphabet, Fill(t[..n]));
      if FILLER in alphabet then filled.Some? && filled.value[..n - 1] == DecodeQuartet(alphabet, t).value[..n - 1]
      else filled.None?
  {
    QuartetAccepted(alphabet, t);
    QuartetAccepted(alphabet, Fill(t[..n]));
  }

  /** A whole last triplet needs no filling. */
  lemma LastTripletRoundTrip(alphabet: Bytes, a: bv8, b: bv8, c: bv8)
    requires IsAlphabet(alphabet)
    ensures DecodeTail(alphabet, EncodeTriplet(alphabet, a, b, c)) == Some([a, b, c])
  {
    var t := EncodeTriplet(alphabet, a, b, c);
    TripletLetters(alphabet, a, b, c);
    assert t[3] in t;
    StripIs(t, 4);
    assert t[..4] == t && Fill(t) == t;
    assert [a, b, c][..3] == [a, b, c];
  }

  /** A quartet that is not the last group is decoded on its own. */
  lemma DecodeConcat(alphabet: Bytes, t: Bytes, rest: Bytes)
    requires |alphabet| == 64 && |t| == 4 && rest != []
    ensures var q, r := DecodeQuartet(alphabet, t), Decode(alphabet, rest);
      Decode(alphabet, t + rest) == if q.None? || r.None? then None else Some(q.value + r.value)
  {
    assert (t + rest)[..4] == t && (t + rest)[4..] == rest;
  }

  lemma EncodeConcat(alphabet: Bytes, q: Bytes, rest: Bytes)
    requires |alphabet| == 64 && |q| == 3
    ensures Encode(alphabet, q + rest) == EncodeTriplet(alphabet, q[0], q[1], q[2]) + Encode(alphabet, rest)
  {
    assert (q + rest)[3..] == rest;
  }

  lemma ShortRoundTrip(alphabet: Bytes, src: Bytes)
    requires IsAlphabet(alphabet) && |src| <= 3
    ensures Decode(alphabet, Encode(alphabet, src))
         == if |src| % 3 == 0 || FILLER in alphabet then Some(src) else None
  {
    if |src| == 3 {
      LastTripletRoundTrip(alphabet, src[0], src[1], src[2]);
      EncodeConcat(alphabet, src, []);
      assert src + [] == src && EncodeTriplet(alphabet, src[0], src[1], src[2]) + [] == Encode(alphabet, src);
      assert src == [src[0], src[1], src[2]];
    } else if src != [] {
      TailRoundTrip(alphabet, src);
    }
  }

  lemma RoundTripStep(alphabet: Bytes, q: Bytes, rest: Bytes)
    requires IsAlphabet(alphabet) && |q| == 3 && rest != []
    ensures var r := Decode(alphabet, Encode(alphabet, rest));
      Decode(alphabet, Encode(alphabet, q + rest)) == if r.None? then None else Some(q + r.value)
  {
    EncodeConcat(alphabet, q, rest);
    EncodeLength(alphabet, rest);
    TripletLetters(alphabet, q[0], q[1], q[2]);
    DecodeConcat(alphabet, EncodeTriplet(alphabet, q[0], q[1], q[2]), Encode(alphabet, rest));
    assert q == [q[0], q[1], q[2]];
  }

  /** Decoding the encoding gives back the string exactly when its length is a multiple of three or the alphabet has
      'A'; otherwise the decoder rejects what the encoder produced. Every alphabet that contains 'A', wherever it
      stands, will do. */
  lemma {:induction false} RoundTrip(alphabet: Bytes, src: Bytes)
    requires IsAlphabet(alphabet)
    ensures Decode(alphabet, Encode(alphabet, src))
         == if |src| % 3 == 0 || FILLER in alphabet then Some(src) else None
    decreases |src|
  {
    if |src| <= 3 {
      ShortRoundTrip(alphabet, src);
    } else {
      RoundTrip(alphabet, src[3..]);
      RoundTripStep(alphabet, src[..3], src[3..]);
      assert src == src[..3] + src[3..];
    }
  }

  // ---------------------------------------------------------------- what the decoder accepts

  /** Where the last group starts: it is the only one that may hold padding. */
  function LastGroup(n: nat): (r: nat)
    ensures r <= n <= r + 4 && r % 4 == 0
  {
    if n == 0 then 0 else (n - 1) / 4 * 4
  }

  /** All characters of the full quartets and of the last group without its padding are letters, the stripped last
      group is not a single letter, and the filler is a letter when the stripped last group needs it. */
  ghost predicate Acceptable(alphabet: Bytes, src: Bytes) {
    var last := Strip(src[LastGroup(|src|)..]);
    && (forall i | 0 <= i < LastGroup(|src|) :: src[i] in alphabet)
    && (forall i | 0 <= i < |last| :: last[i] in alphabet)
    && |last| != 1
    && (|last| == 2 || |last| == 3 ==> FILLER in alphabet)
  }

  lemma TailAccepted(alphabet: Bytes, src: Bytes)
    requires |alphabet| == 64 && |src| <= 4
    ensures DecodeTail(alphabet, src).Some? <==> Acceptable(alphabet, src)
  {
    var s := Strip(src);
    assert src[0..] == src;
    if |s| >= 2 {
      var filled := Fill(s);
      QuartetAccepted(alphabet, filled);
      assert forall i | 0 <= i < |s| :: filled[i] == s[i];
    }
  }

  lemma AcceptedStep(alphabet: Bytes, src: Bytes)
    requires |alphabet| == 64 && |src| > 4
    ensures Decode(alphabet, src).Some? <==>
              (forall i | 0 <= i < 4 :: src[i] in alphabet) && Decode(alphabet, src[4..]).Some?
    ensures Decode(alphabet, src).Some? ==>
              |Decode(alphabet, src).value| == 3 + |Decode(alphabet, src[4..]).value|
  {
    QuartetAccepted(alphabet, src[..4]);
    assert src == src[..4] + src[4..];
    DecodeConcat(alphabet, src[..4], src[4..]);
  }

  /** The decoder accepts exactly the acceptable inputs. */
  lemma {:induction false} AcceptsExactly(alphabet: Bytes, src: Bytes)
    requires |alphabet| == 64
    ensures Decode(alphabet, src).Some? <==> Acceptable(alphabet, src)
    decreases |src|
  {
    if |src| <= 4 {
      TailAccepted(alphabet, src);
    } else {
      AcceptsExactly(alphabet, src[4..]);
      AcceptedStep(alphabet, src);
      AcceptableStep(alphabet, src);
    }
  }

  /** Three bytes for each full quartet and one byte less than the letters of the last group. */
  function BytesIn(src: Bytes): int {
    var last := Strip(src[LastGroup(|src|)..]);
    LastGroup(|src|) / 4 * 3 + if last == [] then 0 else |last| - 1
  }

  lemma BytesInStep(src: Bytes)
    requires |src| > 4
    ensures BytesIn(src) == 3 + BytesIn(src[4..])
  {
    assert src[4..][LastGroup(|src| - 4)..] == src[LastGroup(|src|)..];
  }

  lemma BytesInTail(src: Bytes)
    requires |src| <= 4
    ensures BytesIn(src) == if Strip(src) == [] then 0 else |Strip(src)| - 1
  {
    assert LastGroup(|src|) == 0;
    assert src[LastGroup(|src|)..] == src;
  }

  /** What it returns has just those bytes, never more than base64_decoded_length. */
  lemma {:induction false} DecodedLengthIs(alphabet: Bytes, src: Bytes)
    requires |alphabet| == 64 && Decode(alphabet, src).Some?
    ensures |Decode(alphabet, src).value| == BytesIn(src) <= DecodedLength(|src|)
    decreases |src|
  {
    if |src| <= 4 {
      BytesInTail(src);
    } else {
      AcceptedStep(alphabet, src);
      BytesInStep(src);
      DecodedLengthIs(alphabet, src[4..]);
    }
  }

  lemma AcceptableStep(alphabet: Bytes, src: Bytes)
    requires |src| > 4
    ensures LastGroup(|src|) == LastGroup(|src| - 4) + 4
    ensures Acceptable(alphabet, src) <==>
              (forall i | 0 <= i < 4 :: src[i] in alphabet) && Acceptable(alphabet, src[4..])
  {
    var rest := src[4..];
    assert rest[LastGroup(|rest|)..] == src[LastGroup(|src|)..];
    assert forall i | 0 <= i < LastGroup(|rest|) :: rest[i] == src[i + 4];
    if forall i | 0 <= i < LastGroup(|rest|) :: rest[i] in alphabet {
      forall i | 4 <= i < LastGroup(|src|)
        ensures src[i] in alphabet
      {
        assert rest[i - 4] in alphabet;
      }
    }
  }

  // ---------------------------------------------------------------- canonical inputs

  /** Full groups, padding only where it has to be, and no bits set in the part of the last letter that does not
      count (section 3.5 of RFC 4648). */
  predicate Canonical(alphabet: Bytes, src: Bytes)
    requires |alphabet| == 64
  {
    && |src| % 4 == 0
    && (src != [] ==>
          var last := Strip(src[|src| - 4..]);
          && 2 <= |last|
          && (|last| == 2 ==> SixBit(alphabet, last[1]) & 0xf == 0)
          && (|last| == 3 ==> SixBit(alphabet, last[2]) & 0x3 == 0))
  }

  lemma CanonicalConcat(alphabet: Bytes, t: Bytes, rest: Bytes)
    requires |alphabet| == 64 && |t| == 4 && rest != [] && |rest| % 4 == 0
    ensures Canonical(alphabet, t + rest) <==> Canonical(alphabet, rest)
  {
    assert (t + rest)[|t + rest| - 4..] == rest[|rest| - 4..];
  }

  /** What the encoder produces is canonical. */
  lemma {:induction false} EncodingIsCanonical(alphabet: Bytes, src: Bytes)
    requires IsAlphabet(alphabet)
    ensures Canonical(alphabet, Encode(alphabet, src))
    decreases |src|
  {
    if |src| <= 3 {
      if src != [] {
        LastGroupIsCanonical(alphabet, src);
      }
    } else {
      var q, rest := src[..3], src[3..];
      assert src == q + rest;
      EncodingIsCanonical(alphabet, rest);
      EncodeLength(alphabet, rest);
      EncodeConcat(alphabet, q, rest);
      CanonicalConcat(alphabet, EncodeTriplet(alphabet, q[0], q[1], q[2]), Encode(alphabet, rest));
    }
  }

  lemma LastGroupIsCanonical(alphabet: Bytes, src: Bytes)
    requires IsAlphabet(alphabet) && 1 <= |src| <= 3
    ensures Canonical(alphabet, Encode(alphabet, src))
  {
    if |src| == 3 {
      EncodeConcat(alphabet, src, []);
      assert src + [] == src;
      GroupIsCanonical(alphabet, src[0], src[1], src[2], 3, Encode(alphabet, src));
    } else {
      GroupIsCanonical(alphabet, src[0], if |src| == 2 then src[1] else 0, 0, |src|, EncodeTail(alphabet, src));
    }
  }

  /** A triplet of n bytes and zeros, with padding after its first n + 1 letters. */
  lemma GroupIsCanonical(alphabet: Bytes, a: bv8, b: bv8, c: bv8, n: nat, e: Bytes)
    requires IsAlphabet(alphabet) && 1 <= n <= 3 && (n < 3 ==> c == 0) && (n < 2 ==> b == 0)
    requires |e| == 4 && e[..n + 1] == EncodeTriplet(alphabet, a, b, c)[..n + 1]
    requires forall i | n < i < 4 :: e[i] == PAD
    ensures Canonical(alphabet, e)
  {
    var t := EncodeTriplet(alphabet, a, b, c);
    TripletLetters(alphabet, a, b, c);
    assert e[n] == e[..n + 1][n] == t[..n + 1][n] == t[n] && t[n] in t;
    StripIs(e, n + 1);
    assert e[|e| - 4..] == e;
    assert e[..n + 1][1] == t[1] && (n == 2 ==> e[..n + 1][2] == t[2]);
    LetterValue(alphabet, Sextet1(a, b));
    LetterValue(alphabet, Sextet2(b, c));
    SpareBits(a, b);
  }

  lemma SpareBits(a: bv8, b: bv8)
    ensures Sextet1(a, 0) & 0xf == 0 && Sextet2(b, 0) & 0x3 == 0
  {
  }

  /** A canonical last group that needed filling is what the encoder makes of its bytes. */
  lemma TailBack(alphabet: Bytes, src: Bytes)
    requires IsAlphabet(alphabet) && |src| == 4 && Canonical(alphabet, src) && DecodeTail(alphabet, src).Some?
    ensures Encode(alphabet, DecodeTail(alphabet, src).value) == src
  {
    var s := Strip(src);
    assert src[0..] == src;
    var q := DecodeQuartet(alphabet, Fill(s)).value;
    QuartetAccepted(alphabet, Fill(s));
    if |s| == 4 {
      QuartetBack(alphabet, src);
      assert Fill(s) == src && q[..3] == q;
    } else {
      SixBitMeaning(alphabet, s[0]);
      SixBitMeaning(alphabet, s[1]);
      if |s| == 2 {
        assert q[..1] == [q[0]];
        OneByteBack(alphabet, s[0], s[1], SixBit(alphabet, FILLER));
      } else {
        SixBitMeaning(alphabet, s[2]);
        assert q[..2] == [q[0], q[1]];
        TwoBytesBack(alphabet, s[0], s[1], s[2]);
      }
    }
  }

  lemma OneByteBack(alphabet: Bytes, x: bv8, y: bv8, filler: bv8)
    requires |alphabet| == 64 && x in alphabet && y in alphabet && SixBit(alphabet, y) & 0xf == 0
    ensures EncodeTail(alphabet, [Octet0(SixBit(alphabet, x), SixBit(alphabet, y))]) == [x, y, PAD, PAD]
  {
    SixBitMeaning(alphabet, x);
    SixBitMeaning(alphabet, y);
    OneByteBits(SixBit(alphabet, x), SixBit(alphabet, y));
  }

  lemma OneByteBits(p: bv8, q: bv8)
    requires p < 64 && q < 64 && q & 0xf == 0
    ensures Sextet0(Octet0(p, q)) == p && Sextet1(Octet0(p, q), 0) == q
  {
  }

  lemma TwoBytesBack(alphabet: Bytes, x: bv8, y: bv8, z: bv8)
    requires |alphabet| == 64 && x in alphabet && y in alphabet && z in alphabet && SixBit(alphabet, z) & 0x3 == 0
    ensures var p, q, r := SixBit(alphabet, x), SixBit(alphabet, y), SixBit(alphabet, z);
      EncodeTail(alphabet, [Octet0(p, q), Octet1(q, r)]) == [x, y, z, PAD]
  {
    SixBitMeaning(alphabet, x);
    SixBitMeaning(alphabet, y);
    SixBitMeaning(alphabet, z);
    TwoByteBits(SixBit(alphabet, x), SixBit(alphabet, y), SixBit(alphabet, z));
  }

  lemma TwoByteBits(p: bv8, q: bv8, r: bv8)
    requires p < 64 && q < 64 && r < 64 && r & 0x3 == 0
    ensures Sextet0(Octet0(p, q)) == p && Sextet1(Octet0(p, q), Octet1(q, r)) == q && Sextet2(Octet1(q, r), 0) == r
  {
  }

  /** A canonical input with more than one group: the first quartet comes back, and the rest if its own bytes do. */
  lemma FirstQuartetBack(alphabet: Bytes, src: Bytes)
    requires IsAlphabet(alphabet) && Decode(alphabet, src).Some? && Canonical(alphabet, src) && |src| > 4
    ensures Decode(alphabet, src[4..]).Some? && Canonical(alphabet, src[4..])
    ensures Encode(alphabet, Decode(alphabet, src[4..]).value) == src[4..]
        ==> Encode(alphabet, Decode(alphabet, src).value) == src
  {
    assert src == src[..4] + src[4..];
    CanonicalConcat(alphabet, src[..4], src[4..]);
    DecodeConcat(alphabet, src[..4], src[4..]);
    QuartetBack(alphabet, src[..4]);
    EncodeConcat(alphabet, DecodeQuartet(alphabet, src[..4]).value, Decode(alphabet, src[4..]).value);
  }

  lemma {:induction false} CanonicalComesBack(alphabet: Bytes, src: Bytes)
    requires IsAlphabet(alphabet) && Decode(alphabet, src).Some? && Canonical(alphabet, src)
    ensures Encode(alphabet, Decode(alphabet, src).value) == src
  {
    if src != [] {
      if |src| == 4 {
        TailBack(alphabet, src);
      } else {
        FirstQuartetBack(alphabet, src);
        CanonicalComesBack(alphabet, src[4..]);
      }
    }
  }

  /** Encoding what an accepted input decodes to gives the input back exactly when the input is canonical. */
  lemma ReencodesIff(alphabet: Bytes, src: Bytes)
    requires IsAlphabet(alphabet) && Decode(alphabet, src).Some?
    ensures Encode(alphabet, Decode(alphabet, src).value) == src <==> Canonical(alphabet, src)
  {
    EncodingIsCanonical(alphabet, Decode(alphabet, src).value);
    if Canonical(alphabet, src) {
      CanonicalComesBack(alphabet, src);
    }
  }
}
