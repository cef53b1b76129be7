/** The Base64 codec (section 4 of RFC 4648) over arbitrary alphabets: what encoding and decoding compute, and the
    methods that compute it into caller-supplied arrays through a pair of lookup tables. */
module Base64 {
  import opened Files

  const PAD: bv8 := 61        // '='
  const FILLER: bv8 := 65     // 'A', which the decoder puts in the place of missing characters
  const NO_VALUE: bv8 := 0xff

  /** 64 distinct characters, none of them the padding. */
  predicate IsAlphabet(alphabet: Bytes) {
    && |alphabet| == 64
    && (forall i, j | 0 <= i < j < 64 :: alphabet[i] != alphabet[j])
    && PAD !in alphabet
  }

  /** The value of a character: its last position among the first n letters of the alphabet. */
  function ValueBelow(alphabet: Bytes, n: bv8, c: bv8): bv8
    requires |alphabet| == 64 && n <= 64
    decreases |alphabet|, n as int
  {
    if n == 0 then NO_VALUE
    else if Letter(alphabet, n - 1) == c then n - 1
    else ValueBelow(alphabet, n - 1, c)
  }

  function SixBit(alphabet: Bytes, c: bv8): bv8
    requires |alphabet| == 64
  {
    ValueBelow(alphabet, 64, c)
  }

  function Letter(alphabet: Bytes, sixbit: bv8): bv8
    requires |alphabet| == 64 && sixbit < 64
  {
    alphabet[sixbit as int]
  }

  // ---------------------------------------------------------------- tables

  /** The decode table of the first n letters of an alphabet. */
  ghost predicate IsTable(table: Bytes, alphabet: Bytes, n: bv8)
    requires |alphabet| == 64 && n <= 64
  {
    |table| == 256 && forall c: bv8 {:trigger ValueBelow(alphabet, n, c)} :: table[c as int] == ValueBelow(alphabet, n, c)
  }

  /** Entering one more letter. */
  lemma NextEntry(table: Bytes, alphabet: Bytes, n: bv8)
    requires |alphabet| == 64 && n < 64 && IsTable(table, alphabet, n)
    ensures IsTable(table[Letter(alphabet, n) as int := n], alphabet, n + 1)
  {
    forall c: bv8 {:trigger ValueBelow(alphabet, n + 1, c)}
      ensures table[Letter(alphabet, n) as int := n][c as int] == ValueBelow(alphabet, n + 1, c)
    {
      assert table[c as int] == ValueBelow(alphabet, n, c);
    }
  }

  class Maps {
    const encodeMap: array<bv8>
    const decodeMap: array<bv8>

    ghost predicate For(alphabet: Bytes)
      reads encodeMap, decodeMap
    {
      |alphabet| == 64 && encodeMap[..] == alphabet && IsTable(decodeMap[..], alphabet, 64)
    }

    /** base64_init_maps */
    constructor (alphabet: Bytes)
      requires |alphabet| == 64
      ensures For(alphabet)
    {
      encodeMap := new bv8[64](i requires 0 <= i < 64 => alphabet[i]);
      decodeMap := new bv8[256](_ => NO_VALUE);
      new;
      var i: bv8 := 0;
      while i < 64
        invariant i <= 64
        invariant encodeMap[..] == alphabet && IsTable(decodeMap[..], alphabet, i)
        decreases 64 - i as int
      {
        NextEntry(decodeMap[..], alphabet, i);
        decodeMap[alphabet[i as int] as int] := i;
        i := i + 1;
      }
    }

    /** sixbit_to_b64 */
    method ToLetter(sixbit: bv8, ghost alphabet: Bytes) returns (c: bv8)
      requires For(alphabet) && sixbit < 64
      ensures c == alphabet[sixbit as int]
    {
      return encodeMap[sixbit as int];
    }

    /** sixbit_from_b64 */
    method FromLetter(c: bv8, ghost alphabet: Bytes) returns (sixbit: bv8)
      requires For(alphabet)
      ensures sixbit == SixBit(alphabet, c)
    {
      return decodeMap[c as int];
    }
  }

  /** memcpy into dest. */
  method Put(dest: array<bv8>, at: nat, data: Bytes)
    requires at + |data| <= dest.Length
    modifies dest
    ensures dest[..at + |data|] == old(dest[..at]) + data
    ensures dest[at + |data|..] == old(dest[at + |data|..])
  {
    forall k | 0 <= k < |data| {
      dest[at + k] := data[k];
    }
  }

  /** The last write of a conversion: `count` bytes of data stay, everything behind them is cleared. */
  method PutLast(dest: array<bv8>, at: nat, data: Bytes, count: nat)
    requires at + |data| <= dest.Length && count <= |data|
    modifies dest
    ensures dest[..] == old(dest[..at]) + data[..count] + Zeros(dest.Length - at - count)
  {
    ghost var done := dest[..at];
    Put(dest, at, data);
    assert dest[..at + count] == done + data[..count];
    Put(dest, at + count, Zeros(dest.Length - at - count));
    assert dest[..] == dest[..dest.Length];
  }

  // ---------------------------------------------------------------- encoding

  function EncodedLength(n: nat): nat {
    ((n + 2) / 3) * 4
  }

  /** The four six-bit groups of three bytes. */
  function Sextet0(a: bv8): (r: bv8) ensures r < 64 { (a & 0xfc) >> 2 }

  function Sextet1(a: bv8, b: bv8): (r: bv8) ensures r < 64 { ((a & 0x3) << 4) | ((b & 0xf0) >> 4) }

  function Sextet2(b: bv8, c: bv8): (r: bv8) ensures r < 64 { ((c & 0xc0) >> 6) | ((b & 0xf) << 2) }

  function Sextet3(c: bv8): (r: bv8) ensures r < 64 { c & 0x3f }

  function EncodeTriplet(alphabet: Bytes, a: bv8, b: bv8, c: bv8): (r: Bytes)
    requires |alphabet| == 64
    ensures |r| == 4
  {
    [Letter(alphabet, Sextet0(a)), Letter(alphabet, Sextet1(a, b)), Letter(alphabet, Sextet2(b, c)),
     Letter(alphabet, Sextet3(c))]
  }

  /** One or two leftover bytes: encoded as if followed by zeros, the surplus letters replaced by padding. */
  function EncodeTail(alphabet: Bytes, src: Bytes): (r: Bytes)
    requires |alphabet| == 64 && 1 <= |src| <= 2
    ensures |r| == 4
  {
    var t := EncodeTriplet(alphabet, src[0], if |src| == 2 then src[1] else 0, 0);
    t[..|src| + 1] + seq(3 - |src|, _ => PAD)
  }

  function Encode(alphabet: Bytes, src: Bytes): Bytes
    requires |alphabet| == 64
  {
    if src == [] then []
    else if |src| < 3 then EncodeTail(alphabet, src)
    else EncodeTriplet(alphabet, src[0], src[1], src[2]) + Encode(alphabet, src[3..])
  }

  lemma {:induction false} EncodeLength(alphabet: Bytes, src: Bytes)
    requires |alphabet| == 64
    ensures |Encode(alphabet, src)| == EncodedLength(|src|)
  {
    if |src| >= 3 {
      EncodeLength(alphabet, src[3..]);
    }
  }

  /** base64_encode_triplet_using_maps */
  method EncodeTripletUsingMaps(maps: Maps, ghost alphabet: Bytes, a: bv8, b: bv8, c: bv8) returns (dest: Bytes)
    requires maps.For(alphabet)
    ensures dest == EncodeTriplet(alphabet, a, b, c)
  {
    var d0 := maps.ToLetter(Sextet0(a), alphabet);
    var d1 := maps.ToLetter(Sextet1(a, b), alphabet);
    var d2 := maps.ToLetter(Sextet2(b, c), alphabet);
    var d3 := maps.ToLetter(Sextet3(c), alphabet);
    return [d0, d1, d2, d3];
  }

  /** base64_encode_tail_using_maps */
  method EncodeTailUsingMaps(maps: Maps, ghost alphabet: Bytes, src: Bytes) returns (dest: Bytes)
    requires maps.For(alphabet) && 1 <= |src| <= 2
    ensures dest == EncodeTail(alphabet, src)
  {
    dest := EncodeTripletUsingMaps(maps, alphabet, src[0], if |src| == 2 then src[1] else 0, 0);
    dest := dest[..1 + |src|] + seq(3 - |src|, _ => PAD);
  }

  lemma EncodeSplit(alphabet: Bytes, src: Bytes, i: nat)
    requires |alphabet| == 64 && i + 3 <= |src|
    ensures Encode(alphabet, src[i..])
         == EncodeTriplet(alphabet, src[i], src[i + 1], src[i + 2]) + Encode(alphabet, src[i + 3..])
  {
    assert src[i..][3..] == src[i + 3..];
  }

  lemma EncodedLengthStep(n: nat)
    requires 3 <= n
    ensures EncodedLength(n) == 4 + EncodedLength(n - 3)
  {
  }

  /** `done` bytes of output and the encoding of what is left make up the whole encoding. */
  ghost predicate EncodedSoFar(alphabet: Bytes, output: Bytes, src: Bytes, i: nat)
    requires |alphabet| == 64
  {
    i <= |src| && output + Encode(alphabet, src[i..]) == Encode(alphabet, src)
  }

  lemma EncodeAdvance(alphabet: Bytes, output: Bytes, src: Bytes, i: nat)
    requires |alphabet| == 64 && i + 3 <= |src| && EncodedSoFar(alphabet, output, src, i)
    ensures EncodedSoFar(alphabet, output + EncodeTriplet(alphabet, src[i], src[i + 1], src[i + 2]), src, i + 3)
  {
    EncodeSplit(alphabet, src, i);
  }

  lemma EncodeEnd(alphabet: Bytes, output: Bytes, src: Bytes, i: nat)
    requires |alphabet| == 64 && EncodedSoFar(alphabet, output, src, i) && |src| - i < 3
    ensures Encode(alphabet, src) == output + if i < |src| then EncodeTail(alphabet, src[i..]) else []
  {
  }

  /** The loop of base64_encode_using_maps over whole triplets. */
  method EncodeTriplets(maps: Maps, ghost alphabet: Bytes, dest: array<bv8>, src: Bytes)
    returns (i: nat, destOffset: nat)
    requires maps.For(alphabet) && dest != maps.encodeMap && dest != maps.decodeMap
    requires dest.Length >= EncodedLength(|src|)
    modifies dest
    ensures i <= |src| < i + 3 && destOffset + EncodedLength(|src| - i) == EncodedLength(|src|)
    ensures EncodedSoFar(alphabet, dest[..destOffset], src, i)
  {
    i, destOffset := 0, 0;
    assert src[0..] == src;
    while |src| - i >= 3
      invariant i <= |src|
      invariant destOffset + EncodedLength(|src| - i) == EncodedLength(|src|)
      invariant EncodedSoFar(alphabet, dest[..destOffset], src, i)
    {
      ghost var output := dest[..destOffset];
      EncodedLengthStep(|src| - i);
      EncodeAdvance(alphabet, output, src, i);
      var t := EncodeTripletUsingMaps(maps, alphabet, src[i], src[i + 1], src[i + 2]);
      Put(dest, destOffset, t);
      assert dest[..destOffset + 4] == output + t;
      i, destOffset := i + 3, destOffset + 4;
    }
  }

  /** base64_encode_using_maps */
  method EncodeInto(maps: Maps, ghost alphabet: Bytes, dest: array<bv8>, src: Bytes) returns (n: int)
    requires maps.For(alphabet) && dest != maps.encodeMap && dest != maps.decodeMap
    modifies dest
    ensures dest.Length < EncodedLength(|src|) ==> n == -1 && dest[..] == old(dest[..])
    ensures dest.Length >= EncodedLength(|src|) ==>
              n == EncodedLength(|src|) && dest[..] == Encode(alphabet, src) + Zeros(dest.Length - n)
  {
    if dest.Length < EncodedLength(|src|) {
      return -1;
    }
    var i, destOffset := EncodeTriplets(maps, alphabet, dest, src);
    EncodeEnd(alphabet, dest[..destOffset], src, i);
    var t := [];
    if i < |src| {
      t := EncodeTailUsingMaps(maps, alphabet, src[i..]);
    }
    PutLast(dest, destOffset, t, |t|);
    assert t[..|t|] == t;
    return destOffset + |t|;
  }

  // ---------------------------------------------------------------- decoding

  function DecodedLength(n: nat): nat {
    (n + 3) / 4 * 3
  }

  /** The three bytes of four six-bit groups. */
  function Octet0(p: bv8, q: bv8): bv8 { (p << 2) | (q >> 4) }

  function Octet1(q: bv8, r: bv8): bv8 { ((q & 0xf) << 4) | (r >> 2) }

  function Octet2(r: bv8, s: bv8): bv8 { ((r & 0x3) << 6) | s }

  function DecodeQuartet(alphabet: Bytes, src: Bytes): (r: Option<Bytes>)
    requires |alphabet| == 64 && |src| == 4
    ensures r.Some? ==> |r.value| == 3
  {
    var a, b, c, d := SixBit(alphabet, src[0]), SixBit(alphabet, src[1]), SixBit(alphabet, src[2]), SixBit(alphabet, src[3]);
    if a == NO_VALUE || b == NO_VALUE || c == NO_VALUE || d == NO_VALUE then None
    else Some([Octet0(a, b), Octet1(b, c), Octet2(c, d)])
  }

  /** Throws away trailing padding. */
  function Strip(src: Bytes): (r: Bytes)
    ensures r <= src && (r != [] ==> r[|r| - 1] != 61)
    ensures forall i | |r| <= i < |src| :: src[i] == 61
  {
    if src != [] && src[|src| - 1] == PAD then Strip(src[..|src| - 1]) else src
  }

  /** A short group with the filler in the place of the missing characters. */
  function Fill(s: Bytes): (r: Bytes)
    requires |s| <= 4
    ensures |r| == 4 && s <= r && forall i | |s| <= i < 4 :: r[i] == 65
  {
    s + seq(4 - |s|, _ => FILLER)
  }

  function DecodeTail(alphabet: Bytes, src: Bytes): (r: Option<Bytes>)
    requires |alphabet| == 64 && |src| <= 4
    ensures r.Some? ==> |r.value| <= 3
  {
    var s := Strip(src);
    if s == [] then Some([])
    else if |s| == 1 then None
    else match DecodeQuartet(alphabet, Fill(s))
         case None => None
         case Some(q) => Some(q[..|s| - 1])
  }

  function Decode(alphabet: Bytes, src: Bytes): Option<Bytes>
    requires |alphabet| == 64
  {
    if |src| <= 4 then DecodeTail(alphabet, src)
    else match DecodeQuartet(alphabet, src[..4])
         case None => None
         case Some(q) =>
           match Decode(alphabet, src[4..])
           case None => None
           case Some(rest) => Some(q + rest)
  }

  /** base64_decode_quartet_using_maps */
  method DecodeQuartetUsingMaps(maps: Maps, ghost alphabet: Bytes, src: Bytes) returns (ok: bool, dest: Bytes)
    requires maps.For(alphabet) && |src| == 4
    ensures ok <==> DecodeQuartet(alphabet, src).Some?
    ensures ok ==> dest == DecodeQuartet(alphabet, src).value
  {
    var a := maps.FromLetter(src[0], alphabet);
    var b := maps.FromLetter(src[1], alphabet);
    var c := maps.FromLetter(src[2], alphabet);
    var d := maps.FromLetter(src[3], alphabet);
    if a == NO_VALUE || b == NO_VALUE || c == NO_VALUE || d == NO_VALUE {
      return false, [];
    }
    return true, [Octet0(a, b), Octet1(b, c), Octet2(c, d)];
  }

  /** The loop that throws away trailing padding. */
  method StripPadding(src: Bytes) returns (inSize: nat)
    ensures inSize <= |src| && Strip(src) == src[..inSize]
  {
    inSize := |src|;
    assert src[..inSize] == src;
    while inSize != 0 && src[inSize - 1] == PAD
      invariant inSize <= |src| && Strip(src[..inSize]) == Strip(src)
    {
      assert src[..inSize][..inSize - 1] == src[..inSize - 1];
      inSize := inSize - 1;
    }
  }

  /** base64_decode_tail_using_maps: the three bytes written, if any, and how many of them count; -1 on failure. */
  method DecodeTailUsingMaps(maps: Maps, ghost alphabet: Bytes, src: Bytes) returns (n: int, dest: Bytes)
    requires maps.For(alphabet) && |src| <= 4
    ensures n == -1 <==> DecodeTail(alphabet, src).None?
    ensures -1 <= n <= |dest| && (src == [] ==> dest == []) && |dest| <= 3
    ensures n >= 0 ==> dest[..n] == DecodeTail(alphabet, src).value
  {
    var inSize := StripPadding(src);
    if inSize == 0 {
      return 0, [];
    }
    if inSize == 1 {
      return -1, [];
    }
    var ok;
    ok, dest := DecodeQuartetUsingMaps(maps, alphabet, Fill(src[..inSize]));
    if !ok {
      return -1, [];
    }
    return inSize - 1, dest;
  }

  /** `output` and the decoding of what is left make up the whole decoding, and fail together. */
  ghost predicate DecodedSoFar(alphabet: Bytes, output: Bytes, src: Bytes, i: nat)
    requires |alphabet| == 64
  {
    && i <= |src|
    && (Decode(alphabet, src[i..]).None? <==> Decode(alphabet, src).None?)
    && (Decode(alphabet, src).Some? ==> output + Decode(alphabet, src[i..]).value == Decode(alphabet, src).value)
  }

  lemma DecodeAdvance(alphabet: Bytes, output: Bytes, src: Bytes, i: nat)
    requires |alphabet| == 64 && i + 4 < |src| && DecodedSoFar(alphabet, output, src, i)
    ensures DecodeQuartet(alphabet, src[i..i + 4]).None? ==> Decode(alphabet, src).None?
    ensures DecodeQuartet(alphabet, src[i..i + 4]).Some? ==>
              DecodedSoFar(alphabet, output + DecodeQuartet(alphabet, src[i..i + 4]).value, src, i + 4)
    ensures DecodedLength(|src| - i) == 3 + DecodedLength(|src| - i - 4)
  {
    assert src[i..][..4] == src[i..i + 4] && src[i..][4..] == src[i + 4..];
  }

  lemma DecodeEnd(alphabet: Bytes, output: Bytes, src: Bytes, i: nat)
    requires |alphabet| == 64 && DecodedSoFar(alphabet, output, src, i) && |src| - i <= 4
    ensures Decode(alphabet, src) ==
      match DecodeTail(alphabet, src[i..])
      case None => None
      case Some(last) => Some(output + last)
  {
  }

  /** The loop of base64_decode_using_maps over all quartets but the last group. */
  method DecodeQuartets(maps: Maps, ghost alphabet: Bytes, dest: array<bv8>, src: Bytes)
    returns (ok: bool, i: nat, destOffset: nat)
    requires maps.For(alphabet) && dest != maps.encodeMap && dest != maps.decodeMap
    requires dest.Length >= DecodedLength(|src|)
    modifies dest
    ensures !ok ==> Decode(alphabet, src).None?
    ensures ok ==> i <= |src| <= i + 4 && destOffset + DecodedLength(|src| - i) == DecodedLength(|src|)
    ensures ok ==> DecodedSoFar(alphabet, dest[..destOffset], src, i)
  {
    i, destOffset := 0, 0;
    assert src[0..] == src;
    while |src| - i > 4
      invariant i <= |src|
      invariant destOffset + DecodedLength(|src| - i) == DecodedLength(|src|)
      invariant DecodedSoFar(alphabet, dest[..destOffset], src, i)
    {
      ghost var output := dest[..destOffset];
      var good, q := DecodeQuartetUsingMaps(maps, alphabet, src[i..i + 4]);
      DecodeAdvance(alphabet, output, src, i);
      if !good {
        return false, i, 0;
      }
      Put(dest, destOffset, q);
      assert dest[..destOffset + 3] == output + q;
      i, destOffset := i + 4, destOffset + 3;
    }
    ok := true;
  }

  /** base64_decode_using_maps */
  method DecodeInto(maps: Maps, ghost alphabet: Bytes, dest: array<bv8>, src: Bytes) returns (n: int)
    requires maps.For(alphabet) && dest != maps.encodeMap && dest != maps.decodeMap
    modifies dest
    ensures dest.Length < DecodedLength(|src|) ==> n == -1 && dest[..] == old(dest[..])
    ensures dest.Length >= DecodedLength(|src|) ==>
              match Decode(alphabet, src)
              case None => n == -1
              case Some(bytes) => n == |bytes| <= dest.Length && dest[..] == bytes + Zeros(dest.Length - n)
  {
    if dest.Length < DecodedLength(|src|) {
      return -1;
    }
    var ok, i, destOffset := DecodeQuartets(maps, alphabet, dest, src);
    if !ok {
      return -1;
    }
    DecodeEnd(alphabet, dest[..destOffset], src, i);
    var more, last := DecodeTailUsingMaps(maps, alphabet, src[i..]);
    if more == -1 {
      return -1;
    }
    PutLast(dest, destOffset, last, more);
    return destOffset + more;
  }
}
