/** The DER writer of the Cloudflare worker (`hosted/cloudflare-worker/src/index.js`): length octets
    built with 32-bit shifts, tag-length-value triples, and the wrapping of a PKCS#1 key into a
    PrivateKeyInfo. Read back by a decoder for definite lengths (section 8.1.3 of X.690). */
module Der {
  import opened Text

  type Byte = b: int | 0 <= b < 256 witness 0

  const TWO_31 := 0x8000_0000
  const TWO_32 := 0x1_0000_0000

  // ---------------------------------------------------------------- length octets

  /** The conversion that the bitwise operators of ECMAScript apply to their operands. */
  function ToInt32(n: int): (r: int)
    ensures -TWO_31 <= r < TWO_31
  {
    var m := n % TWO_32;
    if m >= TWO_31 then m - TWO_32 else m
  }

  /** `n & 0xff`. */
  function LowByte(n: int): Byte { n % 256 }

  /** `n >> 8`. */
  function Shift8(n: int): int { ToInt32(n) / 256 }

  lemma ShiftShrinks(n: int)
    requires n > 0
    ensures Shift8(n) < n && (n < TWO_31 ==> Shift8(n) == n / 256)
  {
  }

  /** The octets the loop of `derLength` writes. */
  function LengthOctets(n: int): seq<Byte>
    decreases n
  {
    if n <= 0 then []
    else
      ShiftShrinks(n);
      LengthOctets(Shift8(n)) + [LowByte(n)]
  }

  lemma {:induction false} OctetsBelow(n: int, k: nat, limit: int)
    requires n < limit <= TWO_31 && limit == Power256(k)
    ensures |LengthOctets(n)| <= k
    decreases k
  {
    if n > 0 {
      ShiftShrinks(n);
      assert k > 0 && limit == 256 * Power256(k - 1);
      OctetsBelow(n / 256, k - 1, Power256(k - 1));
    }
  }

  function Power256(k: nat): nat { if k == 0 then 1 else 256 * Power256(k - 1) }

  lemma FewOctets(n: int)
    ensures |LengthOctets(n)| <= 4
    ensures n > 0 ==> |LengthOctets(n)| >= 1
  {
    if n > 0 {
      assert Power256(1) == 0x100 && Power256(2) == 0x1_0000 && Power256(3) == 0x100_0000;
      OctetsBelow(Shift8(n), 3, 0x100_0000);
    }
  }

  function EncodeLength(length: nat): (bytes: seq<Byte>) {
    FewOctets(length);
    if length < 128 then [length]
    else [0x80 + |LengthOctets(length)|] + LengthOctets(length)
  }

  lemma Regroup(a: seq<Byte>, b: seq<Byte>, c: seq<Byte>)
    ensures a + b + c == a + (b + c)
  {
  }

  lemma WriteOctet(n: int, bytes: seq<Byte>)
    requires n > 0
    ensures LengthOctets(n) + bytes == LengthOctets(Shift8(n)) + ([LowByte(n)] + bytes)
  {
    Regroup(LengthOctets(Shift8(n)), [LowByte(n)], bytes);
  }

  method DerLength(length: nat) returns (r: seq<Byte>)
    ensures r == EncodeLength(length)
  {
    if length < 128 { return [length]; }
    FewOctets(length);
    var bytes: seq<Byte> := [];
    var remaining: int := length;
    while remaining > 0
      invariant LengthOctets(length) == LengthOctets(remaining) + bytes
      decreases remaining
    {
      ShiftShrinks(remaining);
      WriteOctet(remaining, bytes);
      bytes := [LowByte(remaining)] + bytes;
      remaining := Shift8(remaining);
    }
    return [0x80 + |bytes|] + bytes;
  }

  function BigEndian(s: seq<Byte>): nat {
    if s == [] then 0 else BigEndian(s[..|s| - 1]) * 256 + s[|s| - 1]
  }

  datatype Decoded<+T> = Decoded(value: T, rest: seq<Byte>)

  /** A definite length in short or long form; the indefinite and the reserved first octet are refused. */
  function DecodeLength(b: seq<Byte>): Option<Decoded<nat>> {
    if b == [] then None
    else if b[0] < 128 then Some(Decoded(b[0], b[1..]))
    else
      var k := b[0] - 128;
      if k == 0 || k == 127 || |b| < 1 + k then None
      else Some(Decoded(BigEndian(b[1..1 + k]), b[1 + k..]))
  }

  lemma BigEndianAppend(s: seq<Byte>, b: Byte)
    ensures BigEndian(s + [b]) == BigEndian(s) * 256 + b
  {
  }

  lemma {:induction false} OctetsMean(n: nat)
    requires n < TWO_31
    ensures BigEndian(LengthOctets(n)) == n
  {
    if n > 0 {
      ShiftShrinks(n);
      OctetsMean(n / 256);
      BigEndianAppend(LengthOctets(n / 256), LowByte(n));
    }
  }

  /** Beyond 31 bits the shift loses the top of the number. */
  lemma OctetsLose(n: nat)
    requires n >= TWO_31
    ensures BigEndian(LengthOctets(n)) < TWO_31
  {
    var m := Shift8(n);
    if m <= 0 {
      assert LengthOctets(n) == [LowByte(n)];
      BigEndianAppend([], LowByte(n));
      assert [] + [LowByte(n)] == [LowByte(n)];
    } else {
      assert m < 0x80_0000;
      OctetsMean(m);
      BigEndianAppend(LengthOctets(m), LowByte(n));
    }
  }

  lemma DecodeEncoded(n: nat, rest: seq<Byte>)
    ensures DecodeLength(EncodeLength(n) + rest) ==
            Some(Decoded(if n < 128 then n else BigEndian(LengthOctets(n)), rest))
  {
    var b := EncodeLength(n) + rest;
    if n < 128 {
      assert b[1..] == rest;
    } else {
      FewOctets(n);
      var k := |LengthOctets(n)|;
      assert b[1..1 + k] == LengthOctets(n) && b[1 + k..] == rest;
    }
  }

  /** Main result, both ways: a length reads back, with whatever follows it untouched, exactly if it
      fits 31 bits. */
  lemma LengthReadsBackExactlyWhen(n: nat, rest: seq<Byte>)
    ensures DecodeLength(EncodeLength(n) + rest) == Some(Decoded(n, rest)) <==> n < TWO_31
  {
    DecodeEncoded(n, rest);
    if n < TWO_31 { OctetsMean(n); } else { OctetsLose(n); }
  }

  lemma {:induction false} OctetsAreFewest(s: seq<Byte>, n: nat)
    requires n < TWO_31 && BigEndian(s) == n
    ensures |LengthOctets(n)| <= |s|
  {
    if n > 0 {
      var front, last := s[..|s| - 1], s[|s| - 1];
      ShiftShrinks(n);
      assert n / 256 == BigEndian(front);
      OctetsAreFewest(front, n / 256);
    }
  }

  /** No definite encoding of the same length is shorter (section 10.1 of X.690). */
  lemma EncodingIsMinimal(n: nat, b: seq<Byte>)
    requires n < TWO_31 && DecodeLength(b) == Some(Decoded(n, []))
    ensures |EncodeLength(n)| <= |b|
  {
    if n >= 128 {
      var k := b[0] - 128;
      assert b[1 + k..] == [];
      OctetsAreFewest(b[1..1 + k], n);
    }
  }

  // ---------------------------------------------------------------- concatenation

  function Flatten(parts: seq<seq<Byte>>): seq<Byte> {
    if parts == [] then [] else Flatten(parts[..|parts| - 1]) + parts[|parts| - 1]
  }

  function Contents(parts: seq<array<Byte>>): (r: seq<seq<Byte>>)
    reads set p | p in parts
    ensures |r| == |parts| && forall k :: 0 <= k < |parts| ==> r[k] == parts[k][..]
  {
    if parts == [] then [] else Contents(parts[..|parts| - 1]) + [parts[|parts| - 1][..]]
  }

  lemma FlattenStep(parts: seq<seq<Byte>>, k: nat)
    requires k < |parts|
    ensures Flatten(parts[..k + 1]) == Flatten(parts[..k]) + parts[k]
  {
    assert parts[..k + 1][..k] == parts[..k];
  }

  lemma {:induction false} FlattenLength(parts: seq<seq<Byte>>, k: nat)
    requires k <= |parts|
    ensures |Flatten(parts[..k])| <= |Flatten(parts)|
    decreases |parts| - k
  {
    if k < |parts| {
      FlattenLength(parts, k + 1);
      FlattenStep(parts, k);
    } else {
      assert parts[..k] == parts;
    }
  }

  /** `output.set(part, offset)`. */
  method SetBytes(output: array<Byte>, part: array<Byte>, offset: nat)
    requires output != part && offset + part.Length <= output.Length
    modifies output
    ensures output[..offset + part.Length] == old(output[..offset]) + part[..]
  {
    for i := 0 to part.Length
      invariant output[..offset] == old(output[..offset])
      invariant output[offset..offset + i] == part[..i]
    {
      output[offset + i] := part[i];
    }
    assert output[..offset + part.Length] == output[..offset] + output[offset..offset + part.Length];
  }

  method TotalLength(parts: seq<array<Byte>>) returns (total: nat)
    ensures total == |Flatten(Contents(parts))|
  {
    ghost var all := Contents(parts);
    total := 0;
    for k := 0 to |parts|
      invariant total == |Flatten(all[..k])|
    {
      FlattenStep(all, k);
      total := total + parts[k].Length;
    }
    assert all[..|parts|] == all;
  }

  /** `concatBytes`: sum the lengths, allocate once, copy part by part. */
  method ConcatBytes(parts: seq<array<Byte>>) returns (output: array<Byte>)
    ensures fresh(output) && output[..] == Flatten(Contents(parts))
  {
    var totalLength := TotalLength(parts);
    output := new Byte[totalLength];
    CopyParts(parts, output);
  }

  method CopyParts(parts: seq<array<Byte>>, output: array<Byte>)
    requires output !in parts && output.Length == |Flatten(Contents(parts))|
    modifies output
    ensures output[..] == Flatten(Contents(parts))
  {
    ghost var all := Contents(parts);
    var offset: nat := 0;
    for k := 0 to |parts|
      invariant forall q :: 0 <= q < |parts| ==> parts[q][..] == all[q]
      invariant offset <= output.Length && output[..offset] == Flatten(all[..k])
    {
      FlattenStep(all, k);
      FlattenLength(all, k + 1);
      SetBytes(output, parts[k], offset);
      offset := offset + parts[k].Length;
    }
    assert all[..|parts|] == all && Contents(parts) == all;
    assert output[..offset] == output[..];
  }

  // ---------------------------------------------------------------- triples

  function DerWrap(tag: Byte, value: seq<Byte>): seq<Byte> {
    [tag] + EncodeLength(|value|) + value
  }

  datatype Triple = Triple(tag: Byte, value: seq<Byte>)

  function DecodeTriple(b: seq<Byte>): Option<Decoded<Triple>> {
    if b == [] then None
    else match DecodeLength(b[1..])
      case None => None
      case Some(Decoded(n, rest)) =>
        if |rest| < n then None else Some(Decoded(Triple(b[0], rest[..n]), rest[n..]))
  }

  lemma TripleReadsBack(tag: Byte, value: seq<Byte>, rest: seq<Byte>)
    requires |value| < TWO_31
    ensures DecodeTriple(DerWrap(tag, value) + rest) == Some(Decoded(Triple(tag, value), rest))
  {
    var b := DerWrap(tag, value) + rest;
    assert b[1..] == EncodeLength(|value|) + (value + rest);
    LengthReadsBackExactlyWhen(|value|, value + rest);
    assert (value + rest)[..|value|] == value && (value + rest)[|value|..] == rest;
  }

  /** No triple is a proper prefix of another one. */
  lemma TriplesArePrefixFree(t: Byte, v: seq<Byte>, u: Byte, w: seq<Byte>)
    requires |v| < TWO_31 && |w| < TWO_31 && DerWrap(t, v) <= DerWrap(u, w)
    ensures t == u && v == w
  {
    var rest := DerWrap(u, w)[|DerWrap(t, v)|..];
    assert DerWrap(u, w) == DerWrap(t, v) + rest && DerWrap(u, w) == DerWrap(u, w) + [];
    TripleReadsBack(t, v, rest);
    TripleReadsBack(u, w, []);
  }

  // ---------------------------------------------------------------- PrivateKeyInfo

  const SEQUENCE: Byte := 0x30
  const OCTET_STRING: Byte := 0x04
  const INTEGER: Byte := 0x02
  const OBJECT_IDENTIFIER: Byte := 0x06
  const NULL: Byte := 0x05

  /** rsaEncryption, 1.2.840.113549.1.1.1. */
  const RSA_ENCRYPTION: seq<Byte> := [0x2a, 0x86, 0x48, 0x86, 0xf7, 0x0d, 0x01, 0x01, 0x01]

  function AlgorithmIdentifier(): seq<Byte> {
    DerWrap(SEQUENCE, [0x06, 0x09, 0x2a, 0x86, 0x48, 0x86, 0xf7, 0x0d, 0x01, 0x01, 0x01] + [0x05, 0x00])
  }

  function InfoBody(pkcs1: seq<Byte>): seq<Byte> {
    [0x02, 0x01, 0x00] + AlgorithmIdentifier() + DerWrap(OCTET_STRING, pkcs1)
  }

  function WrapPkcs1RsaPrivateKey(pkcs1: seq<Byte>): seq<Byte> {
    DerWrap(SEQUENCE, InfoBody(pkcs1))
  }

  datatype PrivateKeyInfo = PrivateKeyInfo(version: nat, algorithm: seq<Byte>, privateKey: seq<Byte>)

  /** Take one triple with the given tag off the front. */
  function Expect(tag: Byte, b: seq<Byte>): Option<Decoded<seq<Byte>>> {
    match DecodeTriple(b)
    case None => None
    case Some(Decoded(t, rest)) => if t.tag == tag then Some(Decoded(t.value, rest)) else None
  }

  function ParseAlgorithm(b: seq<Byte>): Option<seq<Byte>> {
    match Expect(OBJECT_IDENTIFIER, b)
    case None => None
    case Some(Decoded(oid, rest)) => if Expect(NULL, rest) == Some(Decoded([], [])) then Some(oid) else None
  }

  function ParseInfoBody(b: seq<Byte>): Option<PrivateKeyInfo> {
    match Expect(INTEGER, b)
    case None => None
    case Some(Decoded(version, rest)) =>
      match Expect(SEQUENCE, rest)
      case None => None
      case Some(Decoded(algorithm, rest')) =>
        var oid, key := ParseAlgorithm(algorithm), Expect(OCTET_STRING, rest');
        if oid.Some? && key.Some? && key.value.rest == []
        then Some(PrivateKeyInfo(BigEndian(version), oid.value, key.value.value))
        else None
  }

  /** PrivateKeyInfo without attributes (section 5 of RFC 5208). */
  function ParsePrivateKeyInfo(b: seq<Byte>): Option<PrivateKeyInfo> {
    var body := Expect(SEQUENCE, b);
    if body.Some? && body.value.rest == [] then ParseInfoBody(body.value.value) else None
  }

  lemma ExpectReadsBack(tag: Byte, value: seq<Byte>, rest: seq<Byte>)
    requires |value| < TWO_31
    ensures Expect(tag, DerWrap(tag, value) + rest) == Some(Decoded(value, rest))
  {
    TripleReadsBack(tag, value, rest);
  }

  lemma ExpectReadsAll(tag: Byte, value: seq<Byte>)
    requires |value| < TWO_31
    ensures Expect(tag, DerWrap(tag, value)) == Some(Decoded(value, []))
  {
    ExpectReadsBack(tag, value, []);
    assert DerWrap(tag, value) + [] == DerWrap(tag, value);
  }

  const VERSION: seq<Byte> := [0x00]

  /** The content of the algorithm identifier. */
  const ALGORITHM: seq<Byte> := DerWrap(OBJECT_IDENTIFIER, RSA_ENCRYPTION) + DerWrap(NULL, [])

  lemma LiteralsAreTriples()
    ensures AlgorithmIdentifier() == DerWrap(SEQUENCE, ALGORITHM) && [0x02, 0x01, 0x00] == DerWrap(INTEGER, VERSION)
  {
  }

  lemma AlgorithmParses()
    ensures ParseAlgorithm(ALGORITHM) == Some(RSA_ENCRYPTION)
  {
    ExpectReadsBack(OBJECT_IDENTIFIER, RSA_ENCRYPTION, DerWrap(NULL, []));
    ExpectReadsAll(NULL, []);
  }

  lemma BodyParses(key: seq<Byte>)
    requires |key| < TWO_31
    ensures ParseInfoBody(DerWrap(INTEGER, VERSION) + (DerWrap(SEQUENCE, ALGORITHM) + DerWrap(OCTET_STRING, key))) ==
            Some(PrivateKeyInfo(BigEndian(VERSION), RSA_ENCRYPTION, key))
  {
    assert |ALGORITHM| < TWO_31 by { LiteralsAreTriples(); }
    ExpectReadsBack(INTEGER, VERSION, DerWrap(SEQUENCE, ALGORITHM) + DerWrap(OCTET_STRING, key));
    ExpectReadsBack(SEQUENCE, ALGORITHM, DerWrap(OCTET_STRING, key));
    ExpectReadsAll(OCTET_STRING, key);
    AlgorithmParses();
  }

  lemma VersionIsZero()
    ensures BigEndian(VERSION) == 0
  {
  }

  lemma InfoBodyParses(pkcs1: seq<Byte>)
    requires |pkcs1| < TWO_31
    ensures ParseInfoBody(InfoBody(pkcs1)) == Some(PrivateKeyInfo(0, RSA_ENCRYPTION, pkcs1))
  {
    LiteralsAreTriples();
    BodyParses(pkcs1);
    VersionIsZero();
    Regroup(DerWrap(INTEGER, VERSION), DerWrap(SEQUENCE, ALGORITHM), DerWrap(OCTET_STRING, pkcs1));
  }

  lemma LongBodyLeavesRest(tag: Byte, body: seq<Byte>)
    requires |body| >= TWO_31
    ensures var t := DecodeTriple(DerWrap(tag, body)); t.Some? && t.value.rest != []
  {
    assert DerWrap(tag, body)[1..] == EncodeLength(|body|) + body;
    DecodeEncoded(|body|, body);
    OctetsLose(|body|);
  }

  /** What the body adds to the longest keys that a length can be written for: 18 bytes for version and
      algorithm, six for the head of the octet string. */
  const BODY_HEAD := 24

  lemma {:induction false} BigEndianBound(s: seq<Byte>)
    ensures BigEndian(s) < Power256(|s|)
  {
    if s != [] { BigEndianBound(s[..|s| - 1]); }
  }

  /** Near 2^31 a length takes the most octets: one that says four, and four. */
  lemma LongHead(n: nat)
    requires 0x100_0000 <= n < TWO_31
    ensures |EncodeLength(n)| == 5
  {
    FewOctets(n);
    OctetsMean(n);
    BigEndianBound(LengthOctets(n));
    assert Power256(1) == 0x100 && Power256(2) == 0x1_0000 && Power256(3) == 0x100_0000;
  }

  lemma BodyLength(pkcs1: seq<Byte>)
    ensures |InfoBody(pkcs1)| == 19 + |EncodeLength(|pkcs1|)| + |pkcs1|
  {
    assert |AlgorithmIdentifier()| == 15;
  }

  lemma BodyFitsExactlyWhen(pkcs1: seq<Byte>)
    ensures |InfoBody(pkcs1)| < TWO_31 <==> |pkcs1| < TWO_31 - BODY_HEAD
  {
    BodyLength(pkcs1);
    FewOctets(|pkcs1|);
    if 0x100_0000 <= |pkcs1| < TWO_31 { LongHead(|pkcs1|); }
  }

  /** Main result, both ways: the wrapped key parses as a PrivateKeyInfo for rsaEncryption whose octet
      string is the key, byte for byte, exactly if the key is at least 24 bytes short of 2^31, so that
      the body's length fits 31 bits. */
  lemma WrapParsesExactlyWhen(pkcs1: seq<Byte>)
    ensures ParsePrivateKeyInfo(WrapPkcs1RsaPrivateKey(pkcs1)) == Some(PrivateKeyInfo(0, RSA_ENCRYPTION, pkcs1)) <==>
            |pkcs1| < TWO_31 - BODY_HEAD
  {
    BodyFitsExactlyWhen(pkcs1);
    if |InfoBody(pkcs1)| < TWO_31 {
      ExpectReadsAll(SEQUENCE, InfoBody(pkcs1));
      InfoBodyParses(pkcs1);
    } else {
      LongBodyLeavesRest(SEQUENCE, InfoBody(pkcs1));
    }
  }
}
