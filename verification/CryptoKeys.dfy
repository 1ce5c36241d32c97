/** RSA and P-256 keys in DER: PrivateKeyInfo (section 5 of RFC 5208), RSA keys (Appendix A.1 of
    RFC 8017) and EC private keys (section 3 of RFC 5915). */
module CryptoKeys {
  import opened Wrappers
  import opened Der

  const RSA_OID: Bytes := [0x2a, 0x86, 0x48, 0x86, 0xf7, 0x0d, 0x01, 0x01, 0x01]
  const EC_OID: Bytes := [0x2a, 0x86, 0x48, 0xce, 0x3d, 0x02, 0x01]
  const P256_OID: Bytes := [0x2a, 0x86, 0x48, 0xce, 0x3d, 0x03, 0x01, 0x07]

  datatype RsaParts = RsaParts(n: Bytes, e: Bytes, d: Bytes, p: Bytes, q: Bytes, dp: Bytes, dq: Bytes, qi: Bytes)

  datatype EccParts = EccParts(x: Bytes, y: Bytes, d: Bytes)

  // ----- sizes: an encoder only ever sees vectors that fit in memory -----

  lemma TlvSize(tag: Byte, content: Bytes)
    requires |content| < SIZE_LIMIT
    ensures |Tlv(tag, content)| <= |content| + 10
  {
    SizeDigits(|content|);
  }

  /** An upper bound on the written size of a list of integers. */
  function Weight(vs: seq<Bytes>): (r: nat) {
    if vs == [] then 0 else |vs[0]| + 11 + Weight(vs[1..])
  }

  // ----- runs of integers -----

  function WriteIntegers(vs: seq<Bytes>): (r: Bytes)
    requires Weight(vs) < SIZE_LIMIT
    ensures |r| <= Weight(vs)
  {
    if vs == [] then [] else
      TlvSize(0x02, IntegerContent(vs[0]));
      Integer(vs[0]) + WriteIntegers(vs[1..])
  }

  datatype IntegersRead = Integers(values: seq<Bytes>, rest: Bytes) | NoIntegers

  function ReadIntegers(s: Bytes, count: nat): (r: IntegersRead)
    ensures r.Integers? ==> |r.values| == count
  {
    if count == 0 then Integers([], s) else
      match ReadInteger(s)
      case NoValue => NoIntegers
      case Value(v, rest) =>
        match ReadIntegers(rest, count - 1)
        case NoIntegers => NoIntegers
        case Integers(vs, after) => Integers([v] + vs, after)
  }

  function StripEach(vs: seq<Bytes>): (r: seq<Bytes>)
    ensures |r| == |vs| && forall i :: 0 <= i < |vs| ==> r[i] == Stripped(vs[i])
  {
    if vs == [] then [] else [Stripped(vs[0])] + StripEach(vs[1..])
  }

  lemma {:induction false} IntegersRoundTrip(vs: seq<Bytes>, rest: Bytes)
    requires Weight(vs) < SIZE_LIMIT
    ensures ReadIntegers(WriteIntegers(vs) + rest, |vs|) == Integers(StripEach(vs), rest)
  {
    if vs == [] {
      assert WriteIntegers(vs) + rest == rest;
    } else {
      assert WriteIntegers(vs) + rest == Integer(vs[0]) + (WriteIntegers(vs[1..]) + rest);
      IntegerReads(vs[0], WriteIntegers(vs[1..]) + rest);
      IntegersRoundTrip(vs[1..], rest);
    }
  }

  // ----- algorithm identifiers -----

  function RsaAlgorithm(): (r: Bytes) {
    Tlv(0x30, Tlv(0x06, RSA_OID) + [0x05, 0x00])
  }

  function EcAlgorithm(): (r: Bytes) {
    Tlv(0x30, Tlv(0x06, EC_OID) + Tlv(0x06, P256_OID))
  }

  datatype AlgorithmRead = Algorithm(rsa: bool, rest: Bytes) | NoAlgorithm

  function ReadAlgorithmIdentifier(s: Bytes): (r: AlgorithmRead) {
    match ReadElement(s, 0x30)
    case Missed(_) => NoAlgorithm
    case Got(body, rest) =>
      match ReadElement(body, 0x06)
      case Missed(_) => NoAlgorithm
      case Got(oid, parameters) =>
        if oid == RSA_OID then
          (if ReadElement(parameters, 0x05) == Got([], []) then Algorithm(true, rest) else NoAlgorithm)
        else if oid == EC_OID then
          (if ReadElement(parameters, 0x06) == Got(P256_OID, []) then Algorithm(false, rest) else NoAlgorithm)
        else NoAlgorithm
  }

  lemma RsaAlgorithmReads(rest: Bytes)
    ensures ReadAlgorithmIdentifier(RsaAlgorithm() + rest) == Algorithm(true, rest)
  {
    TlvReads(0x30, Tlv(0x06, RSA_OID) + [0x05, 0x00], rest);
    TlvReads(0x06, RSA_OID, [0x05, 0x00]);
    TlvReads(0x05, [], []);
    assert Tlv(0x05, []) + [] == [0x05, 0x00];
    hide Tlv, ReadElement;
  }

  lemma EcAlgorithmReads(rest: Bytes)
    ensures ReadAlgorithmIdentifier(EcAlgorithm() + rest) == Algorithm(false, rest)
  {
    assert RSA_OID != EC_OID by { assert |RSA_OID| != |EC_OID|; }
    TlvReads(0x30, Tlv(0x06, EC_OID) + Tlv(0x06, P256_OID), rest);
    TlvReads(0x06, EC_OID, Tlv(0x06, P256_OID));
    TlvReads(0x06, P256_OID, []);
    assert Tlv(0x06, P256_OID) + [] == Tlv(0x06, P256_OID);
    hide Tlv, ReadElement;
  }

  // ----- RSA -----

  function RsaList(k: RsaParts): (r: seq<Bytes>)
    ensures |r| == 9
  {
    [[0], k.n, k.e, k.d, k.p, k.q, k.dp, k.dq, k.qi]
  }

  ghost predicate RsaFits(k: RsaParts) {
    Weight(RsaList(k)) + 300 < SIZE_LIMIT && Weight([k.n, k.e]) + 300 < SIZE_LIMIT
  }

  function RsaPrivateDer(k: RsaParts): (r: Bytes)
    requires RsaFits(k)
  {
    var body := Tlv(0x30, WriteIntegers(RsaList(k)));
    TlvSize(0x30, WriteIntegers(RsaList(k)));
    TlvSize(0x04, body);
    AlgorithmSizes();
    Tlv(0x30, Integer([0]) + RsaAlgorithm() + Tlv(0x04, body))
  }

  lemma AlgorithmSizes()
    ensures |Integer([0])| <= 12 && |Integer([1])| <= 12 && |RsaAlgorithm()| <= 50 && |EcAlgorithm()| <= 50
  {
    TlvSize(0x02, IntegerContent([0]));
    TlvSize(0x02, IntegerContent([1]));
    TlvSize(0x06, RSA_OID);
    TlvSize(0x06, EC_OID);
    TlvSize(0x06, P256_OID);
    TlvSize(0x30, Tlv(0x06, RSA_OID) + [0x05, 0x00]);
    TlvSize(0x30, Tlv(0x06, EC_OID) + Tlv(0x06, P256_OID));
    hide Tlv;
  }

  function RsaPublicDer(k: RsaParts): (r: Bytes)
    requires RsaFits(k)
  {
    var key := Tlv(0x30, WriteIntegers([k.n, k.e]));
    TlvSize(0x30, WriteIntegers([k.n, k.e]));
    TlvSize(0x03, [0] + key);
    AlgorithmSizes();
    Tlv(0x30, RsaAlgorithm() + BitString(key))
  }

  /** An element that is the whole input. */
  function Only(s: Bytes, tag: Byte): (r: Option<Bytes>) {
    match ReadElement(s, tag)
    case Got(content, rest) => if rest == [] then Some(content) else None
    case Missed(_) => None
  }

  lemma OnlyReads(tag: Byte, content: Bytes)
    requires |content| < SIZE_LIMIT
    ensures Only(Tlv(tag, content), tag) == Some(content)
  {
    TlvReads(tag, content, []);
    assert Tlv(tag, content) + [] == Tlv(tag, content);
  }

  function ParseRsaPrivate(s: Bytes): (r: Option<RsaParts>) {
    match Only(s, 0x30)
    case None => None
    case Some(body) =>
      match ReadIntegers(body, 9)
      case NoIntegers => None
      case Integers(vs, rest) =>
        if vs[0] != [0] || rest != [] then None
        else Some(RsaParts(vs[1], vs[2], vs[3], vs[4], vs[5], vs[6], vs[7], vs[8]))
  }

  /** The version, algorithm and octet string shared by both kinds of private key. */
  datatype PrivateInfo = PrivateInfo(rsa: bool, key: Bytes, rest: Bytes) | NoPrivateInfo

  function ReadPrivateInfo(s: Bytes): (r: PrivateInfo) {
    match Only(s, 0x30)
    case None => NoPrivateInfo
    case Some(body) =>
      match ReadInteger(body)
      case NoValue => NoPrivateInfo
      case Value(version, rest) =>
        if version != [0] then NoPrivateInfo else
          match ReadAlgorithmIdentifier(rest)
          case NoAlgorithm => NoPrivateInfo
          case Algorithm(rsa, after) =>
            match ReadElement(after, 0x04)
            case Missed(_) => NoPrivateInfo
            case Got(key, last) => PrivateInfo(rsa, key, last)
  }

  function ParseRsaPrivateKeyInfo(s: Bytes): (r: Option<RsaParts>) {
    match ReadPrivateInfo(s)
    case NoPrivateInfo => None
    case PrivateInfo(rsa, key, rest) => if !rsa || rest != [] then None else ParseRsaPrivate(key)
  }

  function ParseRsaPublicKeyInfo(s: Bytes): (r: Option<(Bytes, Bytes)>) {
    match Only(s, 0x30)
    case None => None
    case Some(body) =>
      match ReadAlgorithmIdentifier(body)
      case NoAlgorithm => None
      case Algorithm(rsa, after) =>
        match ReadBitString(after)
        case NoValue => None
        case Value(key, rest) =>
          if !rsa || rest != [] then None else
            match Only(key, 0x30)
            case None => None
            case Some(inner) =>
              match ReadIntegers(inner, 2)
              case NoIntegers => None
              case Integers(vs, last) => if last != [] then None else Some((vs[0], vs[1]))
  }

  lemma PrivateInfoReads(algorithm: Bytes, rsa: bool, key: Bytes)
    requires |key| + 200 < SIZE_LIMIT && |algorithm| <= 50
    requires ReadAlgorithmIdentifier(algorithm + Tlv(0x04, key)) == Algorithm(rsa, Tlv(0x04, key))
    ensures |Integer([0]) + algorithm + Tlv(0x04, key)| < SIZE_LIMIT
    ensures ReadPrivateInfo(Tlv(0x30, Integer([0]) + algorithm + Tlv(0x04, key))) == PrivateInfo(rsa, key, [])
  {
    hide Tlv, ReadElement, ReadAlgorithmIdentifier, Integer, ReadInteger, Stripped, Only, IntegerContent, RsaAlgorithm,
      EcAlgorithm;
    TlvSize(0x04, key);
    AlgorithmSizes();
    var body := Integer([0]) + algorithm + Tlv(0x04, key);
    OnlyReads(0x30, body);
    assert body == Integer([0]) + (algorithm + Tlv(0x04, key));
    ZeroReads(algorithm + Tlv(0x04, key));
    TlvReads(0x04, key, []);
    assert Tlv(0x04, key) + [] == Tlv(0x04, key);
  }

  lemma ZeroReads(rest: Bytes)
    ensures ReadInteger(Integer([0]) + rest) == Value([0], rest)
  {
    IntegerReads([0], rest);
  }

  /** The integers of RSAPrivateKey in the order of Appendix A.1.2 of RFC 8017: version, modulus, public
      exponent, private exponent, the two primes, the two exponents and the coefficient. */
  ghost predicate RsaPrivateFields(vs: seq<Bytes>, k: RsaParts) {
    && |vs| == 9 && vs[0] == [0] && vs[1] == Stripped(k.n) && vs[2] == Stripped(k.e) && vs[3] == Stripped(k.d)
    && vs[4] == Stripped(k.p) && vs[5] == Stripped(k.q)
    && vs[6] == Stripped(k.dp) && vs[7] == Stripped(k.dq) && vs[8] == Stripped(k.qi)
  }

  /** The OCTET STRING of the key, and the integers of the SEQUENCE in it. */
  ghost predicate HoldsIntegers(key: Bytes, vs: seq<Bytes>) {
    Only(key, 0x30).Some? && ReadIntegers(Only(key, 0x30).value, |vs|) == Integers(vs, [])
  }

  /** A written RSA private key is a PrivateKeyInfo for RSA whose key holds the nine integers of the
      standard, each in its place, with only leading zeros stripped. */
  lemma RsaPrivateLayout(k: RsaParts)
    requires RsaFits(k)
    ensures exists key, vs ::
      && ReadPrivateInfo(RsaPrivateDer(k)) == PrivateInfo(true, key, [])
      && HoldsIntegers(key, vs) && RsaPrivateFields(vs, k)
  {
    var list := RsaList(k);
    var ints := WriteIntegers(list);
    var body := Tlv(0x30, ints);
    TlvSize(0x30, ints);
    AlgorithmSizes();
    hide ReadAlgorithmIdentifier, ReadPrivateInfo, RsaAlgorithm, WriteIntegers, ReadIntegers, Only, Tlv, Integer;
    RsaAlgorithmReads(Tlv(0x04, body));
    PrivateInfoReads(RsaAlgorithm(), true, body);
    OnlyReads(0x30, ints);
    IntegersRoundTrip(list, []);
    assert ints + [] == ints;
    var vs := StripEach(list);
    assert vs[0] == Stripped([0]) == [0];
    assert HoldsIntegers(body, vs) && RsaPrivateFields(vs, k);
  }

  /** Parsing a written RSA private key returns every component with only leading zeros stripped. */
  lemma RsaPrivateRoundTrip(k: RsaParts)
    requires RsaFits(k)
    ensures ParseRsaPrivateKeyInfo(RsaPrivateDer(k)) ==
      Some(RsaParts(Stripped(k.n), Stripped(k.e), Stripped(k.d), Stripped(k.p), Stripped(k.q), Stripped(k.dp),
        Stripped(k.dq), Stripped(k.qi)))
  {
    RsaPrivateLayout(k);
    hide ReadPrivateInfo, ReadIntegers, Only, RsaPrivateDer, Stripped;
    var key, vs :| ReadPrivateInfo(RsaPrivateDer(k)) == PrivateInfo(true, key, []) && HoldsIntegers(key, vs) &&
      RsaPrivateFields(vs, k);
  }

  lemma RsaPublicRoundTrip(k: RsaParts)
    requires RsaFits(k)
    ensures ParseRsaPublicKeyInfo(RsaPublicDer(k)) == Some((Stripped(k.n), Stripped(k.e)))
  {
    var ints := WriteIntegers([k.n, k.e]);
    var key := Tlv(0x30, ints);
    TlvSize(0x30, ints);
    TlvSize(0x03, [0] + key);
    AlgorithmSizes();
    hide ReadAlgorithmIdentifier, RsaAlgorithm, WriteIntegers, ReadIntegers, Only, Tlv, ReadBitString, BitString;
    OnlyReads(0x30, RsaAlgorithm() + BitString(key));
    RsaAlgorithmReads(BitString(key));
    BitStringReads(key, []);
    assert BitString(key) + [] == BitString(key);
    OnlyReads(0x30, ints);
    IntegersRoundTrip([k.n, k.e], []);
    assert ints + [] == ints;
  }

  /** A written RSA public key holds the modulus and then the public exponent (Appendix A.1.1 of RFC 8017). */
  lemma RsaPublicLayout(k: RsaParts)
    requires RsaFits(k)
    ensures exists key ::
      && |key| + 1 < SIZE_LIMIT && Only(RsaPublicDer(k), 0x30) == Some(RsaAlgorithm() + BitString(key))
      && HoldsIntegers(key, [Stripped(k.n), Stripped(k.e)])
  {
    var ints := WriteIntegers([k.n, k.e]);
    var key := Tlv(0x30, ints);
    TlvSize(0x30, ints);
    TlvSize(0x03, [0] + key);
    AlgorithmSizes();
    hide RsaAlgorithm, WriteIntegers, ReadIntegers, Only, Tlv, BitString;
    OnlyReads(0x30, RsaAlgorithm() + BitString(key));
    OnlyReads(0x30, ints);
    IntegersRoundTrip([k.n, k.e], []);
    assert ints + [] == ints;
    assert StripEach([k.n, k.e]) == [Stripped(k.n), Stripped(k.e)];
    assert HoldsIntegers(key, [Stripped(k.n), Stripped(k.e)]);
  }

  // ----- P-256 -----

  ghost predicate EccFits(k: EccParts) {
    |k.x| == |k.y| == |k.d| == 32
  }

  function Point(k: EccParts): (r: Bytes) {
    [4] + k.x + k.y
  }

  function CurveChoice(): (r: Bytes) {
    Tlv(0xa0, Tlv(0x06, P256_OID))
  }

  function PointChoice(k: EccParts): (r: Bytes)
    requires EccFits(k)
  {
    TlvSize(0x03, [0] + Point(k));
    Tlv(0xa1, BitString(Point(k)))
  }

  function Sec1Content(k: EccParts): (r: Bytes)
    requires EccFits(k)
    ensures |r| < 500
  {
    AlgorithmSizes();
    TlvSize(0x04, k.d);
    TlvSize(0x06, P256_OID);
    TlvSize(0xa0, Tlv(0x06, P256_OID));
    TlvSize(0x03, [0] + Point(k));
    TlvSize(0xa1, BitString(Point(k)));
    Integer([1]) + Tlv(0x04, k.d) + CurveChoice() + PointChoice(k)
  }

  function EccPrivateDer(k: EccParts): (r: Bytes)
    requires EccFits(k)
  {
    var sec1 := Tlv(0x30, Sec1Content(k));
    TlvSize(0x30, Sec1Content(k));
    TlvSize(0x04, sec1);
    AlgorithmSizes();
    Tlv(0x30, Integer([0]) + EcAlgorithm() + Tlv(0x04, sec1))
  }

  function EccPublicDer(k: EccParts): (r: Bytes)
    requires EccFits(k)
  {
    TlvSize(0x03, [0] + Point(k));
    AlgorithmSizes();
    Tlv(0x30, EcAlgorithm() + BitString(Point(k)))
  }

  predicate IsPoint(s: Bytes) {
    |s| == 65 && s[0] == 4
  }

  /** The two optional elements of an EC private key, in any order and number; a failed read of the
      first alternative leaves the reader where it stopped. */
  function ReadOptionals(s: Bytes, x: Bytes, y: Bytes): (r: Option<(Bytes, Bytes)>)
    decreases |s|
  {
    if s == [] then Some((x, y)) else
      match ReadElement(s, 0xa1)
      case Got(content, rest) =>
        (match ReadBitString(content)
         case NoValue => None
         case Value(point, after) =>
           if after != [] || !IsPoint(point) then None else ReadOptionals(rest, point[1..33], point[33..65]))
      case Missed(stopped) =>
        match ReadElement(stopped, 0xa0)
        case Missed(_) => None
        case Got(content, rest) => if Only(content, 0x06) != Some(P256_OID) then None else ReadOptionals(rest, x, y)
  }

  function ParseEccPrivateKeyInfo(s: Bytes): (r: Option<EccParts>) {
    match ReadPrivateInfo(s)
    case NoPrivateInfo => None
    case PrivateInfo(rsa, key, _) =>
      if rsa then None else
        match Only(key, 0x30)
        case None => None
        case Some(body) =>
          match ReadInteger(body)
          case NoValue => None
          case Value(version, rest) =>
            if version != [1] then None else
              match ReadElement(rest, 0x04)
              case Missed(_) => None
              case Got(d, options) =>
                if |d| != 32 then None else
                  match ReadOptionals(options, [], [])
                  case None => None
                  case Some((x, y)) => if |x| == 32 && |y| == 32 then Some(EccParts(x, y, d)) else None
  }

  function ParseEccPublicKey(s: Bytes): (r: Option<(Bytes, Bytes)>) {
    match Only(s, 0x30)
    case None => None
    case Some(body) =>
      match ReadAlgorithmIdentifier(body)
      case NoAlgorithm => None
      case Algorithm(rsa, after) =>
        match ReadBitString(after)
        case NoValue => None
        case Value(point, rest) =>
          if rsa || rest != [] || !IsPoint(point) then None else Some((point[1..33], point[33..65]))
  }

  lemma PointSplits(k: EccParts)
    requires EccFits(k)
    ensures IsPoint(Point(k)) && Point(k)[1..33] == k.x && Point(k)[33..65] == k.y
  {
  }

  lemma OtherTag(tag: Byte, content: Bytes, rest: Bytes, wanted: Byte)
    requires |content| < SIZE_LIMIT && tag != wanted
    ensures ReadElement(Tlv(tag, content) + rest, wanted) == Missed(Tlv(tag, content) + rest)
  {
  }

  lemma OptionalsRead(k: EccParts)
    requires EccFits(k)
    ensures ReadOptionals(CurveChoice() + PointChoice(k), [], []) == Some((k.x, k.y))
  {
    var s := CurveChoice() + PointChoice(k);
    TlvSize(0x06, P256_OID);
    TlvSize(0x03, [0] + Point(k));
    OtherTag(0xa0, Tlv(0x06, P256_OID), PointChoice(k), 0xa1);
    TlvReads(0xa0, Tlv(0x06, P256_OID), PointChoice(k));
    OnlyReads(0x06, P256_OID);
    assert s != [];
    PointOptionReads(k);
    hide Tlv, ReadElement, BitString, PointChoice, Only;
    assert ReadOptionals(s, [], []) == ReadOptionals(PointChoice(k), [], []);
  }

  lemma PointOptionReads(k: EccParts)
    requires EccFits(k)
    ensures ReadOptionals(PointChoice(k), [], []) == Some((k.x, k.y))
  {
    TlvSize(0x03, [0] + Point(k));
    var bits := BitString(Point(k));
    TlvReads(0xa1, bits, []);
    assert Tlv(0xa1, bits) + [] == Tlv(0xa1, bits) && Tlv(0xa1, bits) != [];
    BitStringReads(Point(k), []);
    assert bits + [] == bits;
    PointSplits(k);
    hide Tlv, ReadElement, BitString, Point, ReadBitString;
  }

  /** Parsing a written P-256 private key with 32-byte fields returns it unchanged. */
  lemma EccPrivateRoundTrip(k: EccParts)
    requires EccFits(k)
    ensures ParseEccPrivateKeyInfo(EccPrivateDer(k)) == Some(k)
  {
    hide Tlv, ReadElement, Integer, ReadInteger, ReadOptionals, CurveChoice, PointChoice, EcAlgorithm, RsaAlgorithm,
      ReadPrivateInfo, Only, Sec1Content, IntegerContent, Stripped;
    var content := Sec1Content(k);
    var sec1 := Tlv(0x30, content);
    TlvSize(0x30, content);
    AlgorithmSizes();
    Sec1Reads(k);
    OptionalsRead(k);
    OnlyReads(0x30, content);
    EcAlgorithmReads(Tlv(0x04, sec1));
    PrivateInfoReads(EcAlgorithm(), false, sec1);
  }

  lemma OneReads(rest: Bytes)
    ensures ReadInteger(Integer([1]) + rest) == Value([1], rest)
  {
    IntegerReads([1], rest);
  }

  lemma Sec1Reads(k: EccParts)
    requires EccFits(k)
    ensures ReadInteger(Sec1Content(k)) == Value([1], Tlv(0x04, k.d) + (CurveChoice() + PointChoice(k)))
    ensures ReadElement(Tlv(0x04, k.d) + (CurveChoice() + PointChoice(k)), 0x04) ==
      Got(k.d, CurveChoice() + PointChoice(k))
  {
    hide Tlv, ReadElement, Integer, ReadInteger, CurveChoice, PointChoice, IntegerContent;
    var options := CurveChoice() + PointChoice(k);
    TlvReads(0x04, k.d, options);
    OneReads(Tlv(0x04, k.d) + options);
    assert Sec1Content(k) == Integer([1]) + (Tlv(0x04, k.d) + options);
  }

  lemma EccPublicRoundTrip(k: EccParts)
    requires EccFits(k)
    ensures ParseEccPublicKey(EccPublicDer(k)) == Some((k.x, k.y))
  {
    TlvSize(0x03, [0] + Point(k));
    AlgorithmSizes();
    hide Tlv, BitString, ReadBitString, EcAlgorithm, ReadAlgorithmIdentifier, Only, Point;
    OnlyReads(0x30, EcAlgorithm() + BitString(Point(k)));
    EcAlgorithmReads(BitString(Point(k)));
    BitStringReads(Point(k), []);
    assert BitString(Point(k)) + [] == BitString(Point(k));
    PointSplits(k);
  }

  // ----- the forms of the standards -----

  /** An element whose length takes one octet. */
  function Short(tag: Byte, content: Bytes): (r: Bytes)
    requires |content| < 128
    ensures |r| == |content| + 2
  {
    [tag, |content|] + content
  }

  lemma TlvIsShort(tag: Byte, content: Bytes)
    requires |content| < 128
    ensures Tlv(tag, content) == Short(tag, content)
  {
    TlvForms(tag, content);
  }

  lemma PointForm(k: EccParts)
    requires EccFits(k)
    ensures BitString(Point(k)) == Short(0x03, [0, 4] + k.x + k.y)
  {
    TlvIsShort(0x03, [0] + Point(k));
    hide Tlv, Short;
    assert [0] + Point(k) == [0, 4] + k.x + k.y;
  }

  lemma EcAlgorithmForm()
    ensures EcAlgorithm() == Short(0x30, Short(0x06, EC_OID) + Short(0x06, P256_OID))
  {
    TlvIsShort(0x06, EC_OID);
    TlvIsShort(0x06, P256_OID);
    hide Tlv;
    assert |Short(0x06, EC_OID) + Short(0x06, P256_OID)| == 19;
    hide Short;
    TlvIsShort(0x30, Short(0x06, EC_OID) + Short(0x06, P256_OID));
  }

  /** The ECPrivateKey of section 3 of RFC 5915: version 1, the private key, the curve under tag 0 and,
      under tag 1, the public point in uncompressed form. */
  function EcPrivateKey(k: EccParts): (r: Bytes)
    requires EccFits(k)
  {
    Short(0x30, Short(0x02, [1]) + Short(0x04, k.d) + Short(0xa0, Short(0x06, P256_OID)) +
      Short(0xa1, Short(0x03, [0, 4] + k.x + k.y)))
  }

  lemma Sec1Form(k: EccParts)
    requires EccFits(k)
    ensures Sec1Content(k) == Short(0x02, [1]) + Short(0x04, k.d) + Short(0xa0, Short(0x06, P256_OID)) +
      Short(0xa1, Short(0x03, [0, 4] + k.x + k.y))
    ensures |Sec1Content(k)| == 119
  {
    assert IntegerContent([1]) == [1];
    PointForm(k);
    TlvIsShort(0x02, [1]);
    TlvIsShort(0x04, k.d);
    TlvIsShort(0x06, P256_OID);
    TlvIsShort(0xa0, Short(0x06, P256_OID));
    TlvIsShort(0xa1, Short(0x03, [0, 4] + k.x + k.y));
    hide Tlv, Short, IntegerContent, BitString;
  }

  /** The key of a written P-256 private key has the form of the standard. */
  lemma EccPrivateLayout(k: EccParts)
    requires EccFits(k)
    ensures ReadPrivateInfo(EccPrivateDer(k)) == PrivateInfo(false, EcPrivateKey(k), [])
  {
    var content := Sec1Content(k);
    var key := Tlv(0x30, content);
    TlvSize(0x30, content);
    AlgorithmSizes();
    Sec1Form(k);
    TlvIsShort(0x30, content);
    hide EcAlgorithm, ReadPrivateInfo, ReadAlgorithmIdentifier, Sec1Content, Tlv, Integer, Short;
    EcAlgorithmReads(Tlv(0x04, key));
    PrivateInfoReads(EcAlgorithm(), false, key);
  }

  /** A written P-256 public key is a SubjectPublicKeyInfo (section 2 of RFC 5480) with the point in
      uncompressed form. */
  lemma EccPublicLayout(k: EccParts)
    requires EccFits(k)
    ensures EccPublicDer(k) == Short(0x30, Short(0x30, Short(0x06, EC_OID) + Short(0x06, P256_OID)) +
      Short(0x03, [0, 4] + k.x + k.y))
  {
    PointForm(k);
    EcAlgorithmForm();
    TlvSize(0x03, [0] + Point(k));
    AlgorithmSizes();
    hide Tlv, EcAlgorithm, BitString;
    TlvIsShort(0x30, EcAlgorithm() + BitString(Point(k)));
    hide Short;
  }
}
