/** What an accepted key is: for RSA exactly the written form of what is returned; for P-256 public keys
    too; for P-256 private keys up to the optional elements and trailing bytes the parser lets pass. */
module CryptoKeysExact {
  import opened Wrappers
  import opened Der
  import opened CryptoKeys

  lemma OnlyIsTlv(s: Bytes, tag: Byte)
    requires Only(s, tag).Some?
    ensures |Only(s, tag).value| < SIZE_LIMIT && s == Tlv(tag, Only(s, tag).value) && |Only(s, tag).value| <= |s|
  {
    hide ReadElement, Tlv;
    ReadIsTlv(s, tag);
    assert Tlv(tag, Only(s, tag).value) + [] == Tlv(tag, Only(s, tag).value);
  }

  lemma AlgorithmIsWritten(s: Bytes)
    requires ReadAlgorithmIdentifier(s).Algorithm?
    ensures var r := ReadAlgorithmIdentifier(s);
      s == (if r.rsa then RsaAlgorithm() else EcAlgorithm()) + r.rest && |r.rest| <= |s|
  {
    var outer := ReadElement(s, 0x30);
    ReadIsTlv(s, 0x30);
    var oid := ReadElement(outer.content, 0x06);
    ReadIsTlv(outer.content, 0x06);
    if oid.content == RSA_OID {
      ReadIsTlv(oid.rest, 0x05);
      assert Tlv(0x05, []) + [] == [0x05, 0x00];
    } else {
      ReadIsTlv(oid.rest, 0x06);
      assert Tlv(0x06, P256_OID) + [] == Tlv(0x06, P256_OID);
    }
    hide Tlv, ReadElement;
  }

  lemma IntegerIsLonger(v: Bytes)
    requires Stripped(v) == v && |IntegerContent(v)| < SIZE_LIMIT
    ensures |v| + 2 <= |Integer(v)|
  {
    hide EncodeLength;
  }

  lemma {:induction false} IntegersAreWritten(s: Bytes, count: nat)
    requires ReadIntegers(s, count).Integers? && |s| + 9 * count < SIZE_LIMIT
    ensures var r := ReadIntegers(s, count);
      && Weight(r.values) + |r.rest| <= |s| + 9 * count
      && s == WriteIntegers(r.values) + r.rest && StripEach(r.values) == r.values
    decreases count
  {
    hide Integer, ReadInteger, Stripped, IntegerContent;
    if count > 0 {
      ReadIntegerIsWritten(s);
      var first := ReadInteger(s);
      IntegerIsLonger(first.value);
      IntegersAreWritten(first.rest, count - 1);
      var r, more := ReadIntegers(s, count), ReadIntegers(first.rest, count - 1);
      assert r.values == [first.value] + more.values;
      assert r.values[1..] == more.values;
    }
  }

  /** The outer structure of a private key, with what follows the key octets. */
  lemma PrivateInfoIsWritten(s: Bytes)
    requires ReadPrivateInfo(s).PrivateInfo?
    ensures var r := ReadPrivateInfo(s);
      && |r.key| < SIZE_LIMIT && |r.key| <= |s|
      && var body := Integer([0]) + (if r.rsa then RsaAlgorithm() else EcAlgorithm()) + Tlv(0x04, r.key) + r.rest;
      && |body| < SIZE_LIMIT && s == Tlv(0x30, body)
  {
    hide ReadElement, Tlv, ReadInteger, Integer, ReadAlgorithmIdentifier, RsaAlgorithm, EcAlgorithm, Only,
      IntegerContent;
    OnlyIsTlv(s, 0x30);
    var body := Only(s, 0x30).value;
    ReadIntegerIsWritten(body);
    var after := ReadInteger(body).rest;
    AlgorithmIsWritten(after);
    var last := ReadAlgorithmIdentifier(after).rest;
    ReadIsTlv(last, 0x04);
    var r := ReadPrivateInfo(s);
    KeyIsShorter(last, 0x04);
    assert body == Integer([0]) + (if r.rsa then RsaAlgorithm() else EcAlgorithm()) + Tlv(0x04, r.key) + r.rest;
  }

  lemma KeyIsShorter(s: Bytes, tag: Byte)
    requires ReadElement(s, tag).Got?
    ensures |ReadElement(s, tag).content| <= |s|
  {
    hide ReadLength;
  }

  // ----- RSA -----

  /** An accepted RSA private key is exactly the written form of the components returned. The input
      is no longer than any vector can be. */
  lemma RsaPrivateIsWritten(s: Bytes)
    requires |s| < SIZE_LIMIT / 2 && ParseRsaPrivateKeyInfo(s).Some?
    ensures var k := ParseRsaPrivateKeyInfo(s).value; RsaFits(k) && s == RsaPrivateDer(k)
  {
    hide ReadPrivateInfo, RsaAlgorithm, EcAlgorithm, Tlv, Only, ReadIntegers, Integer, WriteIntegers, StripEach;
    PrivateInfoIsWritten(s);
    var key := ReadPrivateInfo(s).key;
    OnlyIsTlv(key, 0x30);
    var body := Only(key, 0x30).value;
    IntegersAreWritten(body, 9);
    var vs := ReadIntegers(body, 9).values;
    var k := ParseRsaPrivateKeyInfo(s).value;
    assert vs == RsaList(k);
    assert body == WriteIntegers(vs) + [] == WriteIntegers(vs);
    PairWeight(k);
    var outer := Integer([0]) + RsaAlgorithm() + Tlv(0x04, key);
    assert outer + [] == outer;
  }

  lemma PairWeight(k: RsaParts)
    ensures Weight([k.n, k.e]) <= Weight(RsaList(k))
  {
    var l := RsaList(k);
    assert [k.n, k.e][1..] == [k.e] && [k.e][1..] == [];
    assert l[1..] == [k.n, k.e, k.d, k.p, k.q, k.dp, k.dq, k.qi];
    assert l[1..][1..] == [k.e, k.d, k.p, k.q, k.dp, k.dq, k.qi];
    assert Weight([k.e]) == |k.e| + 11 && Weight([k.n, k.e]) == |k.n| + 11 + Weight([k.e]);
    assert Weight(l) == 12 + Weight(l[1..]);
    assert Weight(l[1..]) == |k.n| + 11 + Weight(l[1..][1..]);
    assert Weight(l[1..][1..]) == |k.e| + 11 + Weight(l[1..][1..][1..]);
  }

  /** An accepted RSA public key is exactly the written form of modulus and exponent. */
  lemma RsaPublicIsWritten(s: Bytes)
    requires |s| < SIZE_LIMIT / 2 && ParseRsaPublicKeyInfo(s).Some?
    ensures var (n, e) := ParseRsaPublicKeyInfo(s).value; var k := RsaParts(n, e, [], [], [], [], [], []);
      RsaFits(k) && s == RsaPublicDer(k)
  {
    hide ReadAlgorithmIdentifier, RsaAlgorithm, EcAlgorithm, Tlv, Only, ReadIntegers, Integer, WriteIntegers,
      StripEach, ReadBitString, BitString;
    OnlyIsTlv(s, 0x30);
    var body := Only(s, 0x30).value;
    AlgorithmIsWritten(body);
    var bits := ReadAlgorithmIdentifier(body).rest;
    BitStringIsWritten(bits);
    var key := ReadBitString(bits).value;
    OnlyIsTlv(key, 0x30);
    var inner := Only(key, 0x30).value;
    IntegersAreWritten(inner, 2);
    var vs := ReadIntegers(inner, 2).values;
    var (n, e) := ParseRsaPublicKeyInfo(s).value;
    assert vs == [n, e];
    assert inner == WriteIntegers(vs) + [] == WriteIntegers(vs);
    RestWeight(n, e);
    assert BitString(key) + [] == BitString(key);
  }

  lemma RestWeight(n: Bytes, e: Bytes)
    ensures Weight(RsaList(RsaParts(n, e, [], [], [], [], [], []))) == Weight([n, e]) + 78
  {
    var l := RsaList(RsaParts(n, e, [], [], [], [], [], []));
    var t := l[3..];
    assert [n, e][1..] == [e] && [e][1..] == [];
    assert l[1..][1..][1..] == t;
    assert t == [[], [], [], [], [], []];
    assert t[1..] == [[], [], [], [], []] && t[2..] == [[], [], [], []] && t[3..] == [[], [], []];
    assert t[4..] == [[], []] && t[5..] == [[]] && t[6..] == [];
    assert t[1..][1..] == t[2..] && t[2..][1..] == t[3..] && t[3..][1..] == t[4..] && t[4..][1..] == t[5..];
    assert t[5..][1..] == t[6..];
    assert Weight(t[6..]) == 0 && Weight(t[5..]) == 11 && Weight(t[4..]) == 22 && Weight(t[3..]) == 33;
    assert Weight(t[2..]) == 44 && Weight(t[1..]) == 55 && Weight(t) == 66;
    assert Weight(l[1..][1..]) == |e| + 11 + 66 && Weight(l[1..]) == |n| + 11 + |e| + 11 + 66;
  }

  lemma BitStringIsWritten(s: Bytes)
    requires ReadBitString(s).Value?
    ensures var r := ReadBitString(s);
      |r.value| + 1 < SIZE_LIMIT && s == BitString(r.value) + r.rest && |r.value| <= |s|
  {
    hide ReadElement, Tlv;
    ReadIsTlv(s, 0x03);
    KeyIsShorter(s, 0x03);
    var c := ReadElement(s, 0x03).content;
    assert c == [0] + c[1..];
  }

  // ----- P-256 -----

  /** An accepted P-256 public key is exactly the written form of its point. */
  lemma EccPublicIsWritten(s: Bytes)
    requires ParseEccPublicKey(s).Some?
    ensures var (x, y) := ParseEccPublicKey(s).value; var k := EccParts(x, y, x); EccFits(k) && s == EccPublicDer(k)
  {
    hide ReadAlgorithmIdentifier, RsaAlgorithm, EcAlgorithm, Tlv, Only, ReadBitString, BitString;
    OnlyIsTlv(s, 0x30);
    var body := Only(s, 0x30).value;
    AlgorithmIsWritten(body);
    var bits := ReadAlgorithmIdentifier(body).rest;
    BitStringIsWritten(bits);
    var point := ReadBitString(bits).value;
    assert point == [4] + point[1..33] + point[33..65];
    assert BitString(point) + [] == BitString(point);
  }

  /** What follows the private number in an EC private key: the optional elements. */
  function EccOptions(s: Bytes): (r: Option<Bytes>) {
    match ReadPrivateInfo(s)
    case NoPrivateInfo => None
    case PrivateInfo(_, key, _) =>
      match Only(key, 0x30)
      case None => None
      case Some(body) =>
        match ReadInteger(body)
        case NoValue => None
        case Value(_, rest) =>
          match ReadElement(rest, 0x04)
          case Missed(_) => None
          case Got(_, options) => Some(options)
  }

  lemma EccPrivateParts(s: Bytes)
    requires ParseEccPrivateKeyInfo(s).Some?
    ensures EccOptions(s).Some?
    ensures var k, r := ParseEccPrivateKeyInfo(s).value, ReadPrivateInfo(s);
      && EccFits(k) && r.PrivateInfo? && !r.rsa
      && var content := Integer([1]) + Tlv(0x04, k.d) + EccOptions(s).value;
      && |content| < SIZE_LIMIT && r.key == Tlv(0x30, content)
  {
    hide ReadPrivateInfo, Tlv, ReadInteger, Integer, Only, ReadElement, ReadOptionals, IntegerContent;
    var key := ReadPrivateInfo(s).key;
    OnlyIsTlv(key, 0x30);
    var body := Only(key, 0x30).value;
    ReadIntegerIsWritten(body);
    var rest := ReadInteger(body).rest;
    ReadIsTlv(rest, 0x04);
    var k := ParseEccPrivateKeyInfo(s).value;
    assert body == Integer([1]) + Tlv(0x04, k.d) + EccOptions(s).value;
  }

  /** An accepted P-256 private key is written back byte for byte exactly when nothing follows the key
      octets and its optional elements are the curve and then the point. */
  lemma EccPrivateIsWrittenIff(s: Bytes)
    requires ParseEccPrivateKeyInfo(s).Some?
    ensures EccFits(ParseEccPrivateKeyInfo(s).value) && ReadPrivateInfo(s).PrivateInfo?
    ensures var k := ParseEccPrivateKeyInfo(s).value;
      s == EccPrivateDer(k) <==>
        ReadPrivateInfo(s).rest == [] && EccOptions(s) == Some(CurveChoice() + PointChoice(k))
  {
    hide ReadPrivateInfo, EccPrivateDer, Tlv, Integer, EccOptions, CurveChoice, PointChoice, EcAlgorithm, RsaAlgorithm,
      IntegerContent, ParseEccPrivateKeyInfo;
    EccPrivateParts(s);
    PrivateInfoIsWritten(s);
    var k := ParseEccPrivateKeyInfo(s).value;
    WrittenEccParts(k);
    if ReadPrivateInfo(s).rest == [] && EccOptions(s) == Some(CurveChoice() + PointChoice(k)) {
      Rebuilt(k, ReadPrivateInfo(s).key, s);
    }
  }

  lemma Rebuilt(k: EccParts, key: Bytes, s: Bytes)
    requires EccFits(k) && |key| < SIZE_LIMIT
    requires var content := Integer([1]) + Tlv(0x04, k.d) + (CurveChoice() + PointChoice(k));
      |content| < SIZE_LIMIT && key == Tlv(0x30, content)
    requires var body := Integer([0]) + EcAlgorithm() + Tlv(0x04, key) + []; |body| < SIZE_LIMIT && s == Tlv(0x30, body)
    ensures s == EccPrivateDer(k)
  {
    hide Tlv, Integer, CurveChoice, PointChoice, EcAlgorithm, IntegerContent;
    assert Sec1Content(k) == Integer([1]) + Tlv(0x04, k.d) + (CurveChoice() + PointChoice(k));
    hide Sec1Content;
    var body := Integer([0]) + EcAlgorithm() + Tlv(0x04, key);
    assert body + [] == body;
  }

  lemma WrittenEccParts(k: EccParts)
    requires EccFits(k)
    ensures ReadPrivateInfo(EccPrivateDer(k)).PrivateInfo? && ReadPrivateInfo(EccPrivateDer(k)).rest == []
    ensures EccOptions(EccPrivateDer(k)) == Some(CurveChoice() + PointChoice(k))
  {
    hide Tlv, ReadElement, Integer, ReadInteger, CurveChoice, PointChoice, EcAlgorithm, RsaAlgorithm,
      ReadPrivateInfo, Only, Sec1Content, IntegerContent, Stripped;
    var content := Sec1Content(k);
    var sec1 := Tlv(0x30, content);
    TlvSize(0x30, content);
    AlgorithmSizes();
    Sec1Reads(k);
    OnlyReads(0x30, content);
    EcAlgorithmReads(Tlv(0x04, sec1));
    PrivateInfoReads(EcAlgorithm(), false, sec1);
  }

  // ----- a key that is accepted and not written back -----

  /** The private key without its curve. */
  function WithoutCurve(k: EccParts): (r: Bytes)
    requires EccFits(k)
    ensures |r| < 500
  {
    AlgorithmSizes();
    TlvSize(0x04, k.d);
    TlvSize(0x03, [0] + Point(k));
    TlvSize(0xa1, BitString(Point(k)));
    Integer([1]) + Tlv(0x04, k.d) + PointChoice(k)
  }

  function EccPrivateWithoutCurve(k: EccParts): (r: Bytes)
    requires EccFits(k)
  {
    TlvSize(0x30, WithoutCurve(k));
    TlvSize(0x04, Tlv(0x30, WithoutCurve(k)));
    AlgorithmSizes();
    Tlv(0x30, Integer([0]) + EcAlgorithm() + Tlv(0x04, Tlv(0x30, WithoutCurve(k))))
  }

  /** The curve may be left out: every key is also accepted in a form that the writer never produces. */
  lemma CurveMayBeOmitted(k: EccParts)
    requires EccFits(k)
    ensures ParseEccPrivateKeyInfo(EccPrivateWithoutCurve(k)) == Some(k)
    ensures EccPrivateWithoutCurve(k) != EccPrivateDer(k)
  {
    hide Tlv, ReadElement, Integer, ReadInteger, ReadOptionals, CurveChoice, PointChoice, EcAlgorithm, RsaAlgorithm,
      ReadPrivateInfo, Only, IntegerContent, Stripped, WithoutCurve;
    var content := WithoutCurve(k);
    var sec1 := Tlv(0x30, content);
    TlvSize(0x30, content);
    AlgorithmSizes();
    WithoutCurveReads(k);
    PointOptionReads(k);
    OnlyReads(0x30, content);
    EcAlgorithmReads(Tlv(0x04, sec1));
    PrivateInfoReads(EcAlgorithm(), false, sec1);
    assert EccOptions(EccPrivateWithoutCurve(k)) == Some(PointChoice(k));
    WrittenEccParts(k);
    CurveIsSomething();
    assert |CurveChoice() + PointChoice(k)| != |PointChoice(k)|;
  }

  lemma CurveIsSomething()
    ensures CurveChoice() != []
  {
  }

  lemma WithoutCurveReads(k: EccParts)
    requires EccFits(k)
    ensures ReadInteger(WithoutCurve(k)) == Value([1], Tlv(0x04, k.d) + PointChoice(k))
    ensures ReadElement(Tlv(0x04, k.d) + PointChoice(k), 0x04) == Got(k.d, PointChoice(k))
  {
    hide Tlv, ReadElement, Integer, ReadInteger, PointChoice, IntegerContent;
    OneReads(Tlv(0x04, k.d) + PointChoice(k));
    assert WithoutCurve(k) == Integer([1]) + (Tlv(0x04, k.d) + PointChoice(k));
    TlvReads(0x04, k.d, PointChoice(k));
  }
}
