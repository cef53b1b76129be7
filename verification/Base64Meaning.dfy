/** What the codec's characters and bytes stand for, as section 4 of RFC 4648 has it: four characters are the digits to
    base 64, by their places in the alphabet, of the number whose digits to base 256 are three bytes. */
module Base64Meaning {
  import opened Files
  import opened Base64
  import opened Base64Proofs

  // ---------------------------------------------------------------- bits as digits

  lemma LowHigh2(z: bv8)
    ensures (z >> 2) as int == z as int / 4 && (z & 0x3) as int == z as int % 4
  {
  }

  lemma LowHigh4(z: bv8)
    ensures (z >> 4) as int == z as int / 16 && (z & 0xf) as int == z as int % 16
  {
  }

  lemma LowHigh6(z: bv8)
    ensures (z >> 6) as int == z as int / 64 && (z & 0x3f) as int == z as int % 64
  {
  }

  lemma SextetBits(a: bv8, b: bv8, c: bv8)
    ensures Sextet0(a) == a >> 2
    ensures Sextet1(a, b) >> 4 == a & 0x3 && Sextet1(a, b) & 0xf == b >> 4
    ensures Sextet2(b, c) >> 2 == b & 0xf && Sextet2(b, c) & 0x3 == c >> 6
  {
  }

  lemma SextetDigits(a: bv8, b: bv8, c: bv8)
    ensures Sextet0(a) as int == a as int / 4
    ensures Sextet1(a, b) as int == a as int % 4 * 16 + b as int / 16
    ensures Sextet2(b, c) as int == b as int % 16 * 4 + c as int / 64
    ensures Sextet3(c) as int == c as int % 64
  {
    SextetBits(a, b, c);
    LowHigh2(a);
    LowHigh4(Sextet1(a, b));
    LowHigh4(b);
    LowHigh2(Sextet2(b, c));
    LowHigh6(c);
  }

  lemma OctetBits(p: bv8, q: bv8, r: bv8, s: bv8)
    requires p < 64 && q < 64 && r < 64 && s < 64
    ensures Octet0(p, q) >> 2 == p && Octet0(p, q) & 0x3 == q >> 4
    ensures Octet1(q, r) >> 4 == q & 0xf && Octet1(q, r) & 0xf == r >> 2
    ensures Octet2(r, s) >> 6 == r & 0x3 && Octet2(r, s) & 0x3f == s
  {
  }

  lemma OctetDigits(p: bv8, q: bv8, r: bv8, s: bv8)
    requires p < 64 && q < 64 && r < 64 && s < 64
    ensures Octet0(p, q) as int == p as int * 4 + q as int / 16
    ensures Octet1(q, r) as int == q as int % 16 * 16 + r as int / 4
    ensures Octet2(r, s) as int == r as int % 4 * 64 + s as int
  {
    OctetBits(p, q, r, s);
    LowHigh2(Octet0(p, q));
    LowHigh4(q);
    LowHigh4(Octet1(q, r));
    LowHigh2(r);
    LowHigh6(Octet2(r, s));
  }

  lemma Digits(a: int, b: int, c: int)
    requires 0 <= a < 256 && 0 <= b < 256 && 0 <= c < 256
    ensures ((a / 4 * 64 + (a % 4 * 16 + b / 16)) * 64 + (b % 16 * 4 + c / 64)) * 64 + c % 64 == (a * 256 + b) * 256 + c
  {
  }

  lemma TripletNumber(a: bv8, b: bv8, c: bv8)
    ensures ((Sextet0(a) as int * 64 + Sextet1(a, b) as int) * 64 + Sextet2(b, c) as int) * 64 + Sextet3(c) as int
         == (a as int * 256 + b as int) * 256 + c as int
  {
    SextetDigits(a, b, c);
    Digits(a as int, b as int, c as int);
  }

  lemma Regrouped(p: int, q1: int, q0: int, r1: int, r0: int, s: int)
    ensures ((p * 4 + q1) * 256 + (q0 * 16 + r1)) * 256 + (r0 * 64 + s)
         == ((p * 64 + (q1 * 16 + q0)) * 64 + (r1 * 4 + r0)) * 64 + s
  {
  }

  lemma QuartetNumber(p: bv8, q: bv8, r: bv8, s: bv8)
    requires p < 64 && q < 64 && r < 64 && s < 64
    ensures (Octet0(p, q) as int * 256 + Octet1(q, r) as int) * 256 + Octet2(r, s) as int
         == ((p as int * 64 + q as int) * 64 + r as int) * 64 + s as int
  {
    OctetDigits(p, q, r, s);
    var q1, q0, r1, r0 := q as int / 16, q as int % 16, r as int / 4, r as int % 4;
    Regrouped(p as int, q1, q0, r1, r0, s as int);
    assert q1 * 16 + q0 == q as int && r1 * 4 + r0 == r as int;
  }

  lemma SmallerThan(v: bv8, bound: bv8)
    requires v < bound
    ensures v as int < bound as int
  {
  }

  // ---------------------------------------------------------------- letters

  /** Place v is the last of character c in the alphabet. */
  predicate LastPlace(alphabet: Bytes, c: bv8, v: nat) {
    v < |alphabet| && alphabet[v] == c && forall j | v < j < |alphabet| :: alphabet[j] != c
  }

  /** The decoder's value of a character is its last place in the alphabet, and 0xff if it has none. */
  lemma ValueIsLastPlace(alphabet: Bytes, c: bv8)
    requires |alphabet| == 64
    ensures SixBit(alphabet, c) == 0xff <==> c !in alphabet
    ensures c in alphabet ==> LastPlace(alphabet, c, SixBit(alphabet, c) as int) && SixBit(alphabet, c) < 64
  {
    SixBitMeaning(alphabet, c);
    if c in alphabet {
      var v := SixBit(alphabet, c);
      SmallerThan(v, 64);
      forall j | v as int < j < 64
        ensures alphabet[j] != c
      {
        var u := Position(j);
        LaterDiffer(alphabet, 64, c, u);
      }
    }
  }

  lemma {:induction false} LaterDiffer(alphabet: Bytes, n: bv8, c: bv8, u: bv8)
    requires |alphabet| == 64 && u < n <= 64
    requires ValueBelow(alphabet, n, c) != NO_VALUE && (ValueBelow(alphabet, n, c) as int) < u as int
    ensures alphabet[u as int] != c
    decreases n as int
  {
    if u != n - 1 && Letter(alphabet, n - 1) != c {
      LaterDiffer(alphabet, n - 1, c, u);
    }
  }

  // ---------------------------------------------------------------- encoding

  /** Three bytes become the four letters of their number. */
  lemma TripletMeaning(alphabet: Bytes, a: bv8, b: bv8, c: bv8) returns (v0: nat, v1: nat, v2: nat, v3: nat)
    requires |alphabet| == 64
    ensures v0 < 64 && v1 < 64 && v2 < 64 && v3 < 64
    ensures EncodeTriplet(alphabet, a, b, c) == [alphabet[v0], alphabet[v1], alphabet[v2], alphabet[v3]]
    ensures ((v0 * 64 + v1) * 64 + v2) * 64 + v3 == (a as int * 256 + b as int) * 256 + c as int
  {
    v0, v1, v2, v3 := Sextet0(a) as int, Sextet1(a, b) as int, Sextet2(b, c) as int, Sextet3(c) as int;
    TripletNumber(a, b, c);
    SmallerThan(Sextet0(a), 64);
    SmallerThan(Sextet1(a, b), 64);
    SmallerThan(Sextet2(b, c), 64);
    SmallerThan(Sextet3(c), 64);
  }

  /** Byte i of a text that zeros follow. */
  function OrZero(src: Bytes, i: nat): int {
    if i < |src| then src[i] as int else 0
  }

  lemma FirstGroupMeaning(alphabet: Bytes, src: Bytes) returns (v0: nat, v1: nat, v2: nat, v3: nat)
    requires |alphabet| == 64 && 0 < |src|
    ensures v0 < 64 && v1 < 64 && v2 < 64 && v3 < 64
    ensures ((v0 * 64 + v1) * 64 + v2) * 64 + v3 == (OrZero(src, 0) * 256 + OrZero(src, 1)) * 256 + OrZero(src, 2)
    ensures var e := Encode(alphabet, src);
      && 4 <= |e| && e[0] == alphabet[v0] && e[1] == alphabet[v1]
      && e[2] == (if 1 < |src| then alphabet[v2] else 61)
      && e[3] == (if 2 < |src| then alphabet[v3] else 61)
  {
    var b, c := if 1 < |src| then src[1] else 0, if 2 < |src| then src[2] else 0;
    v0, v1, v2, v3 := TripletMeaning(alphabet, src[0], b, c);
    var t := EncodeTriplet(alphabet, src[0], b, c);
    if |src| < 3 {
      assert Encode(alphabet, src) == EncodeTail(alphabet, src);
    } else {
      assert Encode(alphabet, src) == t + Encode(alphabet, src[3..]);
    }
  }

  /** What is encoded from byte 3k on stands from character 4k on. */
  lemma {:induction false} EncodeFrom(alphabet: Bytes, src: Bytes, k: nat)
    requires |alphabet| == 64 && 3 * k <= |src|
    ensures 4 * k <= |Encode(alphabet, src)| && Encode(alphabet, src)[4 * k..] == Encode(alphabet, src[3 * k..])
    decreases k
  {
    if k == 0 {
      assert src[0..] == src;
    } else {
      EncodeFrom(alphabet, src[3..], k - 1);
      assert src[3..][3 * (k - 1)..] == src[3 * k..];
      var t, rest := EncodeTriplet(alphabet, src[0], src[1], src[2]), Encode(alphabet, src[3..]);
      assert Encode(alphabet, src) == t + rest && (t + rest)[4 * k..] == rest[4 * (k - 1)..];
    }
  }

  lemma BytesFrom(src: Bytes, at: nat)
    requires at < |src|
    ensures OrZero(src[at..], 0) == OrZero(src, at) && OrZero(src[at..], 1) == OrZero(src, at + 1)
    ensures OrZero(src[at..], 2) == OrZero(src, at + 2)
  {
  }

  /** Every group of an encoding: its characters are the letters of the number of the three bytes that it stands for, with
      zeros for bytes that there are not; one leftover byte leaves two letters and "==", two leave three and "=". */
  lemma EncodingMeaning(alphabet: Bytes, src: Bytes, k: nat) returns (v0: nat, v1: nat, v2: nat, v3: nat)
    requires |alphabet| == 64 && 3 * k < |src|
    ensures v0 < 64 && v1 < 64 && v2 < 64 && v3 < 64
    ensures ((v0 * 64 + v1) * 64 + v2) * 64 + v3
         == (OrZero(src, 3 * k) * 256 + OrZero(src, 3 * k + 1)) * 256 + OrZero(src, 3 * k + 2)
    ensures var e := Encode(alphabet, src);
      && 4 * k + 4 <= |e| && e[4 * k] == alphabet[v0] && e[4 * k + 1] == alphabet[v1]
      && e[4 * k + 2] == (if 3 * k + 1 < |src| then alphabet[v2] else 61)
      && e[4 * k + 3] == (if 3 * k + 2 < |src| then alphabet[v3] else 61)
  {
    v0, v1, v2, v3 := FirstGroupMeaning(alphabet, src[3 * k..]);
    BytesFrom(src, 3 * k);
    EncodeFrom(alphabet, src, k);
  }

  /** And there are no other groups: a group for every three bytes begun. */
  lemma EncodedLengthIff(src: Bytes, alphabet: Bytes, k: nat)
    requires |alphabet| == 64
    ensures |Encode(alphabet, src)| % 4 == 0
    ensures 4 * k < |Encode(alphabet, src)| <==> 3 * k < |src|
  {
    EncodeLength(alphabet, src);
  }

  /** The destination that the decoder asks for has three bytes for every four characters begun. */
  lemma DecodedLengthIff(n: nat, k: nat)
    ensures DecodedLength(n) % 3 == 0
    ensures 3 * k < DecodedLength(n) <==> 4 * k < n
  {
  }

  // ---------------------------------------------------------------- decoding

  lemma CharacterValue(alphabet: Bytes, c: bv8) returns (v: bv8)
    requires |alphabet| == 64 && c in alphabet
    ensures v < 64 && v == SixBit(alphabet, c) && LastPlace(alphabet, c, v as int)
  {
    v := SixBit(alphabet, c);
    ValueIsLastPlace(alphabet, c);
  }

  lemma QuartetValues(alphabet: Bytes, s: Bytes) returns (p: bv8, q: bv8, r: bv8, t: bv8)
    requires |alphabet| == 64 && |s| == 4 && DecodeQuartet(alphabet, s).Some?
    ensures p < 64 && q < 64 && r < 64 && t < 64
    ensures LastPlace(alphabet, s[0], p as int) && LastPlace(alphabet, s[1], q as int)
    ensures LastPlace(alphabet, s[2], r as int) && LastPlace(alphabet, s[3], t as int)
    ensures DecodeQuartet(alphabet, s).value == [Octet0(p, q), Octet1(q, r), Octet2(r, t)]
  {
    QuartetAccepted(alphabet, s);
    p := CharacterValue(alphabet, s[0]);
    q := CharacterValue(alphabet, s[1]);
    r := CharacterValue(alphabet, s[2]);
    t := CharacterValue(alphabet, s[3]);
  }

  lemma OctetsNumber(alphabet: Bytes, s: Bytes, o: Bytes, p: bv8, q: bv8, r: bv8, t: bv8)
    returns (v0: nat, v1: nat, v2: nat, v3: nat)
    requires |s| == 4 && p < 64 && q < 64 && r < 64 && t < 64 && o == [Octet0(p, q), Octet1(q, r), Octet2(r, t)]
    requires LastPlace(alphabet, s[0], p as int) && LastPlace(alphabet, s[1], q as int)
    requires LastPlace(alphabet, s[2], r as int) && LastPlace(alphabet, s[3], t as int)
    ensures LastPlace(alphabet, s[0], v0) && LastPlace(alphabet, s[1], v1)
    ensures LastPlace(alphabet, s[2], v2) && LastPlace(alphabet, s[3], v3)
    ensures (o[0] as int * 256 + o[1] as int) * 256 + o[2] as int == ((v0 * 64 + v1) * 64 + v2) * 64 + v3
  {
    v0, v1, v2, v3 := p as int, q as int, r as int, t as int;
    QuartetNumber(p, q, r, t);
  }

  /** Four characters become the three bytes of their number. */
  lemma QuartetMeaning(alphabet: Bytes, s: Bytes) returns (v0: nat, v1: nat, v2: nat, v3: nat)
    requires |alphabet| == 64 && |s| == 4 && DecodeQuartet(alphabet, s).Some?
    ensures LastPlace(alphabet, s[0], v0) && LastPlace(alphabet, s[1], v1)
    ensures LastPlace(alphabet, s[2], v2) && LastPlace(alphabet, s[3], v3)
    ensures var o := DecodeQuartet(alphabet, s).value;
      (o[0] as int * 256 + o[1] as int) * 256 + o[2] as int == ((v0 * 64 + v1) * 64 + v2) * 64 + v3
  {
    var p, q, r, t := QuartetValues(alphabet, s);
    v0, v1, v2, v3 := OctetsNumber(alphabet, s, DecodeQuartet(alphabet, s).value, p, q, r, t);
  }

  /** The characters of group k: four of them, or in the last group those left of the padding, and then the filler. */
  function Group(src: Bytes, k: nat): (g: Bytes)
    requires 4 * k < |src|
    ensures |g| == 4
  {
    if 4 * k + 4 < |src| then src[4 * k..4 * k + 4] else Fill(Strip(src[4 * k..]))
  }

  lemma FirstDecodingMeaning(alphabet: Bytes, src: Bytes) returns (v0: nat, v1: nat, v2: nat, v3: nat)
    requires |alphabet| == 64 && Decode(alphabet, src).Some? && 0 < |Decode(alphabet, src).value|
    ensures 0 < |src|
    ensures var g := Group(src, 0);
      && LastPlace(alphabet, g[0], v0) && LastPlace(alphabet, g[1], v1)
      && LastPlace(alphabet, g[2], v2) && LastPlace(alphabet, g[3], v3)
    ensures var o := Decode(alphabet, src).value;
      var number := ((v0 * 64 + v1) * 64 + v2) * 64 + v3;
      && OrZero(o, 0) * 65536 <= number < (OrZero(o, 0) + 1) * 65536
      && (1 < |o| ==> 0 <= number - (OrZero(o, 0) * 256 + OrZero(o, 1)) * 256 < 256)
      && (2 < |o| ==> number == (OrZero(o, 0) * 256 + OrZero(o, 1)) * 256 + OrZero(o, 2))
  {
    FirstGroup(alphabet, src);
    v0, v1, v2, v3 := QuartetMeaning(alphabet, Group(src, 0));
  }

  lemma FirstGroup(alphabet: Bytes, src: Bytes)
    requires |alphabet| == 64 && Decode(alphabet, src).Some? && 0 < |Decode(alphabet, src).value|
    ensures 0 < |src| && DecodeQuartet(alphabet, Group(src, 0)).Some?
    ensures var o, q := Decode(alphabet, src).value, DecodeQuartet(alphabet, Group(src, 0)).value;
      o[0] == q[0] && (1 < |o| ==> o[1] == q[1]) && (2 < |o| ==> o[2] == q[2])
  {
    assert src[0..] == src;
    if |src| > 4 {
      assert src[0..4] == src[..4];
    }
  }

  /** What is decoded from character 4k on stands from byte 3k on. */
  lemma {:induction false} DecodeFrom(alphabet: Bytes, src: Bytes, k: nat)
    requires |alphabet| == 64 && Decode(alphabet, src).Some? && 3 * k < |Decode(alphabet, src).value|
    ensures 4 * k <= |src| && Decode(alphabet, src[4 * k..]) == Some(Decode(alphabet, src).value[3 * k..])
    decreases k
  {
    if k == 0 {
      assert src[0..] == src;
    } else {
      var q, rest := DecodeQuartet(alphabet, src[..4]).value, Decode(alphabet, src[4..]).value;
      assert Decode(alphabet, src).value == q + rest && (q + rest)[3 * k..] == rest[3 * (k - 1)..];
      DecodeFrom(alphabet, src[4..], k - 1);
      assert src[4..][4 * (k - 1)..] == src[4 * k..];
    }
  }

  lemma GroupFrom(src: Bytes, k: nat)
    requires 4 * k < |src|
    ensures Group(src[4 * k..], 0) == Group(src, k)
  {
    assert src[4 * k..][0..] == src[4 * k..];
    if 4 * k + 4 < |src| {
      assert src[4 * k..][0..4] == src[4 * k..4 * k + 4];
    }
  }

  /** Every group of a decoding: its bytes are the leading ones of the number of the group's characters. */
  lemma DecodingMeaning(alphabet: Bytes, src: Bytes, k: nat) returns (v0: nat, v1: nat, v2: nat, v3: nat)
    requires |alphabet| == 64 && Decode(alphabet, src).Some? && 3 * k < |Decode(alphabet, src).value|
    ensures 4 * k < |src|
    ensures var g := Group(src, k);
      && LastPlace(alphabet, g[0], v0) && LastPlace(alphabet, g[1], v1)
      && LastPlace(alphabet, g[2], v2) && LastPlace(alphabet, g[3], v3)
    ensures var o := Decode(alphabet, src).value;
      var number := ((v0 * 64 + v1) * 64 + v2) * 64 + v3;
      && OrZero(o, 3 * k) * 65536 <= number < (OrZero(o, 3 * k) + 1) * 65536
      && (3 * k + 1 < |o| ==> 0 <= number - (OrZero(o, 3 * k) * 256 + OrZero(o, 3 * k + 1)) * 256 < 256)
      && (3 * k + 2 < |o| ==> number == (OrZero(o, 3 * k) * 256 + OrZero(o, 3 * k + 1)) * 256 + OrZero(o, 3 * k + 2))
  {
    DecodeFrom(alphabet, src, k);
    v0, v1, v2, v3 := FirstDecodingMeaning(alphabet, src[4 * k..]);
    GroupFrom(src, k);
    BytesFrom(Decode(alphabet, src).value, 3 * k);
  }
}
