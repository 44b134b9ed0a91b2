/** The DER wrapping of a PKCS#1 RSA key as PKCS#8: tag, length and value, in the definite
    form with the shortest length (sections 8.1.3 and 10.1 of ITU-T X.690). */
module DerEncoding {
  import opened Wrappers

  type Byte = n: nat | n < 256

  function Number(b: seq<Byte>): nat {
    if b == [] then 0 else 256 * Number(b[..|b| - 1]) + b[|b| - 1]
  }

  /** The last `k` big-endian bytes of a number. */
  function Bytes(n: nat, k: nat): (b: seq<Byte>)
    ensures |b| == k
  {
    if k == 0 then [] else Bytes(n / 256, k - 1) + [n % 256]
  }

  /** Without leading zeros, but for the last byte. */
  function Stripped(b: seq<Byte>): seq<Byte> { if |b| <= 1 || b[0] != 0 then b else Stripped(b[1..]) }

  function Power(k: nat): (p: nat)
    ensures p >= 1
  {
    if k == 0 then 1 else 256 * Power(k - 1)
  }

  const WORD: nat := 8

  function Length(n: nat): (b: seq<Byte>)
    requires n < Power(WORD)
  {
    if n < 128 then [n]
    else
      var bytes := Stripped(Bytes(n, WORD));
      StrippedIsShorter(Bytes(n, WORD));
      [128 + |bytes|] + bytes
  }

  lemma {:induction false} StrippedIsShorter(b: seq<Byte>)
    ensures |Stripped(b)| <= |b| && (b != [] ==> Stripped(b) != [])
  {
    if |b| <= 1 || b[0] != 0 {
    } else {
      StrippedIsShorter(b[1..]);
    }
  }

  function Tlv(tag: Byte, value: seq<Byte>): seq<Byte>
    requires |value| < Power(WORD)
  {
    [tag] + Length(|value|) + value
  }

  // ------------------------------------------------------------------ numbers and bytes

  lemma {:induction false} NumberOfBytes(n: nat, k: nat)
    requires n < Power(k)
    ensures Number(Bytes(n, k)) == n
  {
    if k == 0 {
    } else {
      NumberOfBytes(n / 256, k - 1);
      assert Bytes(n, k)[..k - 1] == Bytes(n / 256, k - 1);
    }
  }

  lemma {:induction false} NumberIsBelow(b: seq<Byte>)
    ensures Number(b) < Power(|b|)
  {
    if b == [] {
    } else {
      NumberIsBelow(b[..|b| - 1]);
    }
  }

  lemma {:induction false} LeadingZero(b: seq<Byte>)
    requires b != [] && b[0] == 0
    ensures Number(b) == Number(b[1..])
  {
    if |b| > 1 {
      LeadingZero(b[..|b| - 1]);
      assert b[..|b| - 1][1..] == b[1..][..|b| - 2];
    } else {
      assert b[..0] == [];
    }
  }

  predicate IsShortest(b: seq<Byte>) { b == [] || b[0] != 0 }

  lemma {:induction false} StrippedIsSame(b: seq<Byte>)
    ensures Number(Stripped(b)) == Number(b)
    ensures Number(b) > 0 ==> IsShortest(Stripped(b))
  {
    if |b| > 1 && b[0] == 0 {
      LeadingZero(b);
      StrippedIsSame(b[1..]);
    } else if |b| == 1 {
      assert b[..0] == [];
    }
  }

  lemma {:induction false} ShortestIsPositive(b: seq<Byte>)
    requires b != [] && IsShortest(b)
    ensures Number(b) > 0
  {
    if |b| <= 1 {
    } else {
      ShortestIsPositive(b[..|b| - 1]);
    }
  }

  /** A number has one shortest form. */
  lemma {:induction false} ShortestIsUnique(a: seq<Byte>, b: seq<Byte>)
    requires IsShortest(a) && IsShortest(b) && Number(a) == Number(b)
    ensures a == b
    decreases |a|
  {
    if a != [] { ShortestIsPositive(a); }
    if b != [] { ShortestIsPositive(b); }
    if a == [] || b == [] {
    } else {
      SameDigits(Number(a[..|a| - 1]), a[|a| - 1], Number(b[..|b| - 1]), b[|b| - 1]);
      ShortestIsUnique(a[..|a| - 1], b[..|b| - 1]);
      assert a == a[..|a| - 1] + [a[|a| - 1]] && b == b[..|b| - 1] + [b[|b| - 1]];
    }
  }

  lemma SameDigits(p: nat, x: Byte, q: nat, y: Byte)
    requires 256 * p + x == 256 * q + y
    ensures p == q && x == y
  {
  }

  // ------------------------------------------------------------------------- decoding

  datatype Element = Element(tag: Byte, value: seq<Byte>)

  /** The number of bytes of the length field, and the length, if it is in shortest form. */
  function ReadLength(b: seq<Byte>): Option<(nat, nat)> {
    if b == [] then None
    else if b[0] < 128 then Some((1, b[0]))
    else
      var k := b[0] - 128;
      if k == 0 || k > WORD || |b| < 1 + k then None
      else
        var n := Number(b[1..1 + k]);
        if b[1] == 0 || n < 128 then None else Some((1 + k, n))
  }

  /** The first element and what follows it. */
  function Decode(b: seq<Byte>): Option<(Element, seq<Byte>)> {
    if b == [] then None
    else
      match ReadLength(b[1..])
      case None => None
      case Some((k, n)) =>
        if |b| < 1 + k + n then None else Some((Element(b[0], b[1 + k..1 + k + n]), b[1 + k + n..]))
  }

  lemma LengthRoundTrip(n: nat, rest: seq<Byte>)
    requires n < Power(WORD)
    ensures ReadLength(Length(n) + rest) == Some((|Length(n)|, n))
  {
    if n >= 128 {
      var bytes := Stripped(Bytes(n, WORD));
      StrippedIsShorter(Bytes(n, WORD));
      NumberOfBytes(n, WORD);
      StrippedIsSame(Bytes(n, WORD));
      var b := Length(n) + rest;
      assert b[1..1 + |bytes|] == bytes;
    }
  }

  /** Decoding gives back the tag, the value and whatever follows. */
  lemma DecodeOfTlv(tag: Byte, value: seq<Byte>, rest: seq<Byte>)
    requires |value| < Power(WORD)
    ensures Decode(Tlv(tag, value) + rest) == Some((Element(tag, value), rest))
  {
    var b, k := Tlv(tag, value) + rest, |Length(|value|)|;
    LengthRoundTrip(|value|, value + rest);
    assert b[1..] == Length(|value|) + (value + rest);
    assert b[1 + k..1 + k + |value|] == value && b[1 + k + |value|..] == rest;
  }

  lemma LengthIsUnique(b: seq<Byte>)
    requires ReadLength(b).Some?
    ensures var (k, n) := ReadLength(b).value;
      n < Power(WORD) && k <= |b| && b[..k] == Length(n)
  {
    if b[0] < 128 {
      PowerOfWord();
      assert b[..1] == [b[0]];
    } else {
      var k := b[0] - 128;
      var bytes := b[1..1 + k];
      NumberIsBelow(bytes);
      PowersGrow(k, WORD);
      var n := Number(bytes);
      NumberOfBytes(n, WORD);
      StrippedIsSame(Bytes(n, WORD));
      ShortestIsUnique(bytes, Stripped(Bytes(n, WORD)));
      assert b[..1 + k] == [128 + k] + bytes;
    }
  }

  lemma {:induction false} PowersGrow(j: nat, k: nat)
    requires j <= k
    ensures Power(j) <= Power(k)
  {
    if j >= k {
    } else {
      PowersGrow(j, k - 1);
    }
  }

  lemma PowerOfWord()
    ensures Power(WORD) > 256
  {
    PowersGrow(2, WORD);
    assert Power(2) == 256 * Power(1) && Power(1) == 256 * Power(0);
  }

  /** Only what the encoder writes is decoded: there is one encoding of each element. */
  lemma TlvOfDecode(b: seq<Byte>)
    requires Decode(b).Some?
    ensures var (e, rest) := Decode(b).value;
      |e.value| < Power(WORD) && b == Tlv(e.tag, e.value) + rest
  {
    LengthIsUnique(b[1..]);
    var (k, n) := ReadLength(b[1..]).value;
    assert b[1..][..k] == b[1..1 + k];
    assert b == [b[0]] + b[1..1 + k] + b[1 + k..1 + k + n] + b[1 + k + n..];
  }

  // ------------------------------------------------------------------ the key's wrapping

  const VERSION: seq<Byte> := [0x02, 0x01, 0x00]
  const RSA_OID: seq<Byte> := [0x06, 0x09, 0x2a, 0x86, 0x48, 0x86, 0xf7, 0x0d, 0x01, 0x01, 0x01]
  const NO_PARAMETERS: seq<Byte> := [0x05, 0x00]
  const RSA_ALGORITHM: seq<Byte> :=
    [0x30, 0x0d, 0x06, 0x09, 0x2a, 0x86, 0x48, 0x86, 0xf7, 0x0d, 0x01, 0x01, 0x01, 0x05, 0x00]

  function PrivateKeyInfo(key: seq<Byte>): seq<Byte>
    requires |key| < Power(WORD)
  {
    VERSION + RSA_ALGORITHM + Tlv(0x04, key)
  }

  /** The PKCS#8 encoding of a PKCS#1 key. */
  method WrapRsaKey(key: seq<Byte>) returns (pkcs8: seq<Byte>)
    requires |key| + 64 < Power(WORD)
    ensures |PrivateKeyInfo(key)| < Power(WORD) && pkcs8 == Tlv(0x30, PrivateKeyInfo(key))
  {
    LengthIsShort(|key|);
    var info := VERSION;
    info := info + RSA_ALGORITHM;
    var octets := EncodeTlv(0x04, key);
    info := info + octets;
    pkcs8 := EncodeTlv(0x30, info);
  }

  method EncodeTlv(tag: Byte, value: seq<Byte>) returns (encoded: seq<Byte>)
    requires |value| < Power(WORD)
    ensures encoded == Tlv(tag, value)
  {
    encoded := [tag];
    if |value| < 128 {
      encoded := encoded + [|value|];
    } else {
      var length := Bytes(|value|, WORD);
      StrippedIsShorter(length);
      var shortest := Stripped(length);
      encoded := encoded + [128 + |shortest|];
      encoded := encoded + shortest;
    }
    encoded := encoded + value;
  }

  lemma LengthIsShort(n: nat)
    requires n < Power(WORD)
    ensures |Length(n)| <= 1 + WORD
  {
    StrippedIsShorter(Bytes(n, WORD));
  }

  /** The value of the first element, if it has the tag, and what follows it. */
  function Field(b: seq<Byte>, tag: Byte): Option<(seq<Byte>, seq<Byte>)> {
    match Decode(b)
    case None => None
    case Some((e, rest)) => if e.tag == tag then Some((e.value, rest)) else None
  }

  /** Reads the fields of a PrivateKeyInfo (section 5 of RFC 5208): version 0, the
      rsaEncryption algorithm without parameters, and the key. */
  function ReadFields(info: seq<Byte>): Option<seq<Byte>> {
    var version := Field(info, 0x02);
    if version.None? || version.value.0 != [0] then None
    else
      var algorithm := Field(version.value.1, 0x30);
      if algorithm.None? || algorithm.value.0 != RSA_OID + NO_PARAMETERS then None
      else
        var key := Field(algorithm.value.1, 0x04);
        if key.None? || key.value.1 != [] then None else Some(key.value.0)
  }

  function ReadPrivateKey(b: seq<Byte>): Option<seq<Byte>> {
    var whole := Field(b, 0x30);
    if whole.None? || whole.value.1 != [] then None else ReadFields(whole.value.0)
  }

  lemma FixedFieldsAreTlvs()
    ensures 13 < Power(WORD)
    ensures VERSION == Tlv(0x02, [0]) && RSA_ALGORITHM == Tlv(0x30, RSA_OID + NO_PARAMETERS)
  {
    PowerOfWord();
  }

  lemma FieldOfTlv(tag: Byte, value: seq<Byte>, rest: seq<Byte>, b: seq<Byte>)
    requires |value| < Power(WORD) && b == Tlv(tag, value) + rest
    ensures Field(b, tag) == Some((value, rest))
  {
    DecodeOfTlv(tag, value, rest);
  }

  lemma FieldsReadBack(key: seq<Byte>, octets: seq<Byte>, info: seq<Byte>)
    requires |key| < Power(WORD) && octets == Tlv(0x04, key) && info == VERSION + RSA_ALGORITHM + octets
    ensures ReadFields(info) == Some(key)
  {
    var rest := RSA_ALGORITHM + octets;
    FixedFieldsAreTlvs();
    assert info == VERSION + rest && octets == octets + [];
    FieldOfTlv(0x02, [0], rest, info);
    FieldOfTlv(0x30, RSA_OID + NO_PARAMETERS, octets, rest);
    FieldOfTlv(0x04, key, [], octets);
  }

  /** The wrapped key reads back as the same bytes, for an RSA key of version 0. */
  lemma WrappedKeyReadsBack(key: seq<Byte>)
    requires |key| + 64 < Power(WORD)
    ensures |PrivateKeyInfo(key)| < Power(WORD)
    ensures ReadPrivateKey(Tlv(0x30, PrivateKeyInfo(key))) == Some(key)
  {
    LengthIsShort(|key|);
    var info := PrivateKeyInfo(key);
    FieldsReadBack(key, Tlv(0x04, key), info);
    assert Tlv(0x30, info) == Tlv(0x30, info) + [];
    FieldOfTlv(0x30, info, [], Tlv(0x30, info));
  }
}
