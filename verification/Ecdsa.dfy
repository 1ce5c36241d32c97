/** ECDSA signatures: the fixed-width pair r||s against the DER ECDSA-Sig-Value (section 2.2.3 of RFC 3279). */
module Ecdsa {
  import opened Wrappers
  import opened Der

  predicate IsZero(v: Bytes) {
    forall i :: 0 <= i < |v| ==> v[i] == 0
  }

  // ----- reading -----

  datatype Side = Side(value: Bytes, rest: Bytes) | NoSide

  /** The content of one INTEGER without its sign byte. */
  function Magnitude(c: Bytes): (r: Bytes)
    requires c != []
  {
    if c[0] == 0 then c[1..] else c
  }

  /** One INTEGER, right-aligned in half bytes. */
  function ReadSide(s: Bytes, half: nat): (r: Side)
    ensures r.Side? ==> |r.value| == half
  {
    if |s| < 2 || s[0] != 0x02 || s[1] == 0 || s[1] > half + 1 || s[1] > |s| - 2 then NoSide
    else
      var v := Magnitude(s[2..2 + s[1]]);
      if s[2] >= 128 || v == [] || |v| > half then NoSide
      else Side(Zeros(half - |v|) + v, s[2 + s[1]..])
  }

  function ReadSides(s: Bytes, half: nat, count: nat, done: Bytes): (r: Option<Bytes>)
    ensures r.Some? ==> |r.value| == |done| + count * half
  {
    if count == 0 then if s == [] then Some(done) else None
    else
      match ReadSide(s, half)
      case NoSide => None
      case Side(v, rest) => ReadSides(rest, half, count - 1, done + v)
  }

  /** The body of the SEQUENCE when its length, in one to three bytes, covers the whole input. */
  function ReadBody(s: Bytes): (r: Option<Bytes>) {
    if |s| < 6 || s[0] != 0x30 then None
    else if s[1] < 128 then if s[1] == |s| - 2 then Some(s[2..]) else None
    else
      var n := s[1] - 128;
      if n > 2 || 2 + n > |s| || Number(s[2..2 + n]) != |s| - 2 - n then None else Some(s[2 + n..])
  }

  function DerToRaw(s: Bytes, half: nat): (r: Option<Bytes>)
    ensures r.Some? ==> |r.value| == 2 * half
  {
    match ReadBody(s)
    case None => None
    case Some(body) => ReadSides(body, half, 2, [])
  }

  // ----- writing -----

  function ToByte(n: nat): (b: Byte) {
    n % 256
  }

  function RawToDer(raw: Bytes): (r: Bytes) {
    if raw == [] || |raw| % 2 != 0 then []
    else
      var half := |raw| / 2;
      var r, s := IntegerContent(raw[..half]), IntegerContent(raw[half..]);
      [0x30, ToByte(4 + |r| + |s|)] + [0x02, ToByte(|r|)] + r + [0x02, ToByte(|s|)] + s
  }

  // ----- what the two mean to each other -----

  lemma {:induction false} ContentOfZero(v: Bytes)
    requires IsZero(v)
    ensures IntegerContent(v) == [0]
  {
    if |v| > 1 {
      assert IsZero(v[1..]) by {
        forall i | 0 <= i < |v| - 1 ensures v[1..][i] == 0 {
          assert v[1..][i] == v[i + 1];
        }
      }
      ContentOfZero(v[1..]);
    }
  }

  lemma ZeroTail(v: Bytes)
    requires v != [] && v[0] == 0
    ensures IsZero(v[1..]) ==> IsZero(v)
  {
    assert v == [0] + v[1..];
  }

  /** The magnitude of a written non-zero integer, filled up with zeros, is the integer. */
  lemma {:induction false} MagnitudeFills(v: Bytes)
    requires !IsZero(v)
    ensures var m := Magnitude(IntegerContent(v)); m != [] && |m| <= |v| && Zeros(|v| - |m|) + m == v
    ensures IntegerContent(v)[0] < 128
  {
    if |v| > 1 && v[0] == 0 {
      var tail := v[1..];
      ZeroTail(v);
      MagnitudeFills(tail);
      var m := Magnitude(IntegerContent(tail));
      assert Zeros(|v| - |m|) == [0] + Zeros(|tail| - |m|);
      assert v == [0] + tail;
    } else if v[0] >= 128 {
      assert ([0] + v)[1..] == v;
    } else {
      assert Zeros(0) + v == v;
    }
  }

  lemma SideReads(v: Bytes, rest: Bytes)
    requires 1 <= |v| <= 60
    ensures ReadSide(Encoded(v) + rest, |v|)
         == if IsZero(v) then NoSide else Side(v, rest)
  {
    var c := IntegerContent(v);
    var s := [0x02, ToByte(|c|)] + c + rest;
    assert s[2..2 + |c|] == c && s[2 + |c|..] == rest && s[1] == |c| && s[2] == c[0];
    if IsZero(v) {
      ContentOfZero(v);
    } else {
      MagnitudeFills(v);
    }
  }

  /** An INTEGER with these content bytes. */
  function Framed(c: Bytes): (r: Bytes) {
    [0x02, ToByte(|c|)] + c
  }

  function Encoded(v: Bytes): (r: Bytes) {
    Framed(IntegerContent(v))
  }

  lemma WrittenBody(r: Bytes, s: Bytes)
    requires 1 <= |r| == |s| <= 60
    ensures var body := Encoded(r) + Encoded(s); |body| < 128 && RawToDer(r + s) == [0x30, |body|] + body
    ensures ReadBody(RawToDer(r + s)) == Some(Encoded(r) + Encoded(s))
  {
    var raw := r + s;
    assert raw[..|r|] == r && raw[|r|..] == s;
    var body := Encoded(r) + Encoded(s);
    assert RawToDer(raw) == [0x30, |body|] + body;
    assert RawToDer(raw)[2..] == body;
  }

  lemma SidesRead(r: Bytes, s: Bytes)
    requires 1 <= |r| == |s| <= 60
    ensures ReadSides(Encoded(r) + Encoded(s), |r|, 2, []) == if IsZero(r) || IsZero(s) then None else Some(r + s)
  {
    hide ReadSide;
    SideReads(r, Encoded(s));
    SideReads(s, []);
    assert Encoded(s) + [] == Encoded(s);
    hide Encoded, IsZero;
    if !IsZero(r) {
      assert ReadSides(Encoded(r) + Encoded(s), |r|, 2, []) == ReadSides(Encoded(s), |r|, 1, [] + r);
      if !IsZero(s) {
        assert ReadSides(Encoded(s), |r|, 1, [] + r) == ReadSides([], |r|, 0, [] + r + s);
        assert [] + r + s == r + s;
      }
    }
  }

  /** A raw pair of up to 60 bytes a side survives the way through DER exactly when both halves are
      non-zero; otherwise the reader rejects it. */
  lemma SignatureRoundTrip(r: Bytes, s: Bytes)
    requires 1 <= |r| == |s| <= 60
    ensures DerToRaw(RawToDer(r + s), |r|) == if IsZero(r) || IsZero(s) then None else Some(r + s)
  {
    hide RawToDer, ReadBody, ReadSides, Encoded, IsZero;
    WrittenBody(r, s);
    SidesRead(r, s);
  }

  lemma P256RoundTrip(raw: Bytes)
    requires |raw| == 64
    ensures DerToRaw(RawToDer(raw), 32) == if IsZero(raw[..32]) || IsZero(raw[32..]) then None else Some(raw)
  {
    SignatureRoundTrip(raw[..32], raw[32..]);
    assert raw == raw[..32] + raw[32..];
  }

  /** The written form is the ECDSA-Sig-Value of section 2.2.3 of RFC 3279. */
  lemma WrittenIsSigValue(r: Bytes, s: Bytes)
    requires 1 <= |r| == |s| <= 60
    ensures RawToDer(r + s) == Tlv(0x30, Integer(r) + Integer(s))
  {
    hide RawToDer, Tlv, IntegerContent, Integer, Encoded;
    IntegerIsEncoded(r);
    IntegerIsEncoded(s);
    WrittenBody(r, s);
    ShortTlv(0x30, Encoded(r) + Encoded(s));
  }

  lemma ShortTlv(tag: Byte, content: Bytes)
    requires |content| < 128
    ensures Tlv(tag, content) == [tag, |content|] + content
  {
  }

  lemma IntegerIsEncoded(v: Bytes)
    requires |v| <= 60
    ensures |IntegerContent(v)| < 128 && Integer(v) == Encoded(v)
  {
    hide Tlv;
    ShortTlv(0x02, IntegerContent(v));
  }

  // ----- what an accepted signature is -----

  lemma {:induction false} NumberOfPadded(zeros: nat, v: Bytes)
    ensures Number(Zeros(zeros) + v) == Number(v)
  {
    var s := Zeros(zeros) + v;
    if v != [] {
      assert s[..|s| - 1] == Zeros(zeros) + v[..|v| - 1];
      NumberOfPadded(zeros, v[..|v| - 1]);
    } else if zeros > 0 {
      assert s[..|s| - 1] == Zeros(zeros - 1) + v;
      NumberOfPadded(zeros - 1, v);
    }
  }

  lemma MagnitudeNumber(c: Bytes, zeros: nat)
    requires c != []
    ensures Number(Zeros(zeros) + Magnitude(c)) == Number(c)
  {
    NumberOfPadded(zeros, Magnitude(c));
    if c[0] == 0 {
      assert c == Zeros(1) + c[1..];
      NumberOfPadded(1, c[1..]);
    }
  }

  lemma SideIsContent(s: Bytes, half: nat) returns (c: Bytes)
    requires ReadSide(s, half).Side?
    ensures 1 <= |c| <= half + 1 && |c| < 256 && c[0] < 128 && 1 <= |Magnitude(c)| <= half
    ensures s == Framed(c) + ReadSide(s, half).rest
    ensures ReadSide(s, half).value == Zeros(half - |Magnitude(c)|) + Magnitude(c)
  {
    hide Magnitude, Zeros;
    c := s[2..2 + s[1]];
    assert ToByte(|c|) == s[1];
    assert s == [s[0], s[1]] + c + s[2 + s[1]..];
  }

  lemma SidesSplit(body: Bytes, half: nat)
    requires ReadSides(body, half, 2, []).Some?
    ensures var one := ReadSide(body, half);
      one.Side? && ReadSide(one.rest, half).Side? && ReadSide(one.rest, half).rest == [] &&
      ReadSides(body, half, 2, []) == Some(one.value + ReadSide(one.rest, half).value)
  {
    hide ReadSide;
    var one := ReadSide(body, half);
    assert ReadSides(body, half, 2, []) == ReadSides(one.rest, half, 1, [] + one.value);
    var two := ReadSide(one.rest, half);
    assert ReadSides(one.rest, half, 1, [] + one.value) == ReadSides(two.rest, half, 0, [] + one.value + two.value);
    assert [] + one.value + two.value == one.value + two.value;
  }

  /** Split of an accepted body into its two encoded contents. */
  lemma BodySplit(body: Bytes, half: nat) returns (r: Bytes, s: Bytes)
    requires ReadSides(body, half, 2, []).Some?
    ensures 1 <= |r| <= half + 1 && 1 <= |s| <= half + 1 && |r| < 256 && |s| < 256 && r[0] < 128 && s[0] < 128
    ensures body == Framed(r) + Framed(s)
    ensures 1 <= |Magnitude(r)| <= half && 1 <= |Magnitude(s)| <= half
    ensures ReadSides(body, half, 2, []).value ==
      (Zeros(half - |Magnitude(r)|) + Magnitude(r)) + (Zeros(half - |Magnitude(s)|) + Magnitude(s))
  {
    hide ReadSides, ReadSide, Zeros, Magnitude, Framed;
    SidesSplit(body, half);
    var one := ReadSide(body, half);
    r := SideIsContent(body, half);
    s := SideIsContent(one.rest, half);
    assert Framed(s) + [] == Framed(s);
  }

  /** Content bytes that the reader takes for one side: not negative, not the single zero byte, and
      of at most half bytes behind a leading zero byte. */
  predicate Fits(c: Bytes, half: nat) {
    1 <= |c| <= half + 1 && |c| < 256 && c[0] < 128 && c != [0] && (c[0] == 0 || |c| <= half)
  }

  /** What the reader makes of such contents. */
  function Widened(c: Bytes, half: nat): (r: Bytes)
    requires Fits(c, half)
    ensures |r| == half
  {
    Zeros(half - |Magnitude(c)|) + Magnitude(c)
  }

  lemma FramedReads(c: Bytes, rest: Bytes, half: nat)
    requires |c| < 256
    ensures ReadSide(Framed(c) + rest, half) == if Fits(c, half) then Side(Widened(c, half), rest) else NoSide
  {
    hide Zeros;
    var s := Framed(c) + rest;
    assert s[0] == 0x02 && s[1] == |c|;
    if c != [] {
      assert s[2] == c[0] && s[2..2 + |c|] == c && s[2 + |c|..] == rest;
      assert c[0] == 0 && |c| == 1 ==> c == [0];
    }
  }

  lemma PairReads(r: Bytes, s: Bytes, half: nat)
    requires |r| < 256 && |s| < 256
    ensures ReadSides(Framed(r) + Framed(s), half, 2, []) ==
      if Fits(r, half) && Fits(s, half) then Some(Widened(r, half) + Widened(s, half)) else None
  {
    hide ReadSide, ReadSides, Framed, Fits, Widened;
    FramedReads(r, Framed(s), half);
    FramedReads(s, [], half);
    assert Framed(s) + [] == Framed(s);
    SidesStep(Framed(r) + Framed(s), half, 2, []);
    if Fits(r, half) {
      SidesStep(Framed(s), half, 1, [] + Widened(r, half));
      if Fits(s, half) {
        SidesStep([], half, 0, [] + Widened(r, half) + Widened(s, half));
        assert [] + Widened(r, half) + Widened(s, half) == Widened(r, half) + Widened(s, half);
      }
    }
  }

  /** A signature is accepted exactly when its body is two framed contents that fit. */
  lemma AcceptedIff(der: Bytes, half: nat)
    ensures DerToRaw(der, half).Some? <==>
      exists r: Bytes, s: Bytes :: Fits(r, half) && Fits(s, half) && ReadBody(der) == Some(Framed(r) + Framed(s))
  {
    hide ReadBody, ReadSides, Framed;
    if DerToRaw(der, half).Some? {
      var r, s := AcceptedMeans(der, half);
    } else {
      forall r: Bytes, s: Bytes | Fits(r, half) && Fits(s, half)
        ensures ReadBody(der) != Some(Framed(r) + Framed(s))
      {
        PairReads(r, s, half);
      }
    }
  }

  /** The contents of an accepted signature, and the pair returned: the same numbers. */
  lemma AcceptedMeans(der: Bytes, half: nat) returns (r: Bytes, s: Bytes)
    requires DerToRaw(der, half).Some?
    ensures Fits(r, half) && Fits(s, half) && ReadBody(der) == Some(Framed(r) + Framed(s))
    ensures DerToRaw(der, half).value == Widened(r, half) + Widened(s, half)
    ensures Number(Widened(r, half)) == Number(r) && Number(Widened(s, half)) == Number(s)
  {
    hide ReadBody, ReadSides, ReadSide, Zeros, Number, Framed;
    var body := ReadBody(der).value;
    r, s := BodySplit(body, half);
    PairReads(r, s, half);
    MagnitudeNumber(r, half - |Magnitude(r)|);
    MagnitudeNumber(s, half - |Magnitude(s)|);
  }

  /** A half comes out as zero exactly when its content is two or more zero bytes. */
  lemma ZeroHalfIff(c: Bytes, half: nat)
    requires Fits(c, half)
    ensures IsZero(Widened(c, half)) <==> |c| >= 2 && IsZero(c)
  {
    var m := Magnitude(c);
    var w := Widened(c, half);
    assert forall i :: 0 <= i < |m| ==> w[half - |m| + i] == m[i];
    if IsZero(w) {
      forall i | 0 <= i < |m| ensures m[i] == 0 {
        assert w[half - |m| + i] == 0;
      }
      if c[0] == 0 {
        ZeroTail(c);
      }
    }
  }

  // ----- which encodings are canonical -----

  lemma PaddedContent(c: Bytes, zeros: nat)
    requires c != [] && c[0] < 128 && Magnitude(c) != []
    ensures IntegerContent(Zeros(zeros) + Magnitude(c)) == c <==> MinimalNonNegative(c)
  {
    var v := Magnitude(c);
    ContentIsMinimal(Zeros(zeros) + v);
    if MinimalNonNegative(c) {
      PaddingVanishes(zeros, v);
      assert c[0] == 0 ==> c == [0] + v;
    }
  }

  lemma {:induction false} PaddingVanishes(zeros: nat, v: Bytes)
    requires v != []
    ensures IntegerContent(Zeros(zeros) + v) == IntegerContent(v)
  {
    if zeros == 0 {
      assert Zeros(0) + v == v;
    } else {
      assert (Zeros(zeros) + v)[1..] == Zeros(zeros - 1) + v;
      PaddingVanishes(zeros - 1, v);
    }
  }

  /** Written canonically: a one-byte length, and both contents without a superfluous zero byte. */
  predicate Canonical(der: Bytes) {
    |der| >= 2 && der[1] < 128 &&
    match ReadBody(der)
    case None => false
    case Some(body) =>
      |body| >= 2 && 2 + body[1] + 2 <= |body| && MinimalNonNegative(body[2..2 + body[1]]) &&
      MinimalNonNegative(body[2 + body[1] as int + 2..])
  }

  /** The reader also takes padded contents and long lengths. What it accepts is written back byte
      for byte exactly when the encoding was canonical. */
  lemma ReencodesIffCanonical(der: Bytes, half: nat)
    requires half <= 60 && DerToRaw(der, half).Some?
    ensures RawToDer(DerToRaw(der, half).value) == der <==> Canonical(der)
  {
    hide ReadSides, RawToDer, ReadSide, IntegerContent, Zeros, MinimalNonNegative, Magnitude;
    var body := ReadBody(der).value;
    var r, s := BodySplit(body, half);
    var one, two := Zeros(half - |Magnitude(r)|) + Magnitude(r), Zeros(half - |Magnitude(s)|) + Magnitude(s);
    WrittenBody(one, two);
    PaddedContent(r, half - |Magnitude(r)|);
    PaddedContent(s, half - |Magnitude(s)|);
    FramesSplit(IntegerContent(one), IntegerContent(two), r, s);
    CanonicalIs(der, r, s);
    SameHeader(der, body, Encoded(one) + Encoded(two));
    hide ReadBody, Canonical, Encoded, Framed;
  }

  lemma CanonicalIs(der: Bytes, r: Bytes, s: Bytes)
    requires ReadBody(der) == Some(Framed(r) + Framed(s)) && 1 <= |r| < 256 && 1 <= |s| < 256
    ensures |der| >= 2 && (Canonical(der) <==> der[1] < 128 && MinimalNonNegative(r) && MinimalNonNegative(s))
  {
    hide MinimalNonNegative;
    var body := Framed(r) + Framed(s);
    assert body[1] == |r| && body[2..2 + body[1]] == r && body[2 + body[1] as int + 2..] == s;
  }

  /** Writing a body again gives the same bytes when the body and the short length are the same. */
  lemma SameHeader(der: Bytes, body: Bytes, written: Bytes)
    requires ReadBody(der) == Some(body) && |written| < 128
    ensures |der| >= 2 && ([0x30, |written|] + written == der <==> der[1] < 128 && written == body)
  {
    if der[1] < 128 {
      assert der == [0x30, |body|] + body;
      assert der[2..] == body;
      assert ([0x30, |written|] + written)[2..] == written;
    } else {
      assert ([0x30, |written|] + written)[1] == |written|;
    }
  }

  lemma FramesSplit(c: Bytes, d: Bytes, r: Bytes, s: Bytes)
    requires |c| < 256 && |r| < 256
    ensures Framed(c) + Framed(d) == Framed(r) + Framed(s) <==> c == r && d == s
  {
    var left, right := Framed(c) + Framed(d), Framed(r) + Framed(s);
    if left == right {
      assert left[1] == |c| && right[1] == |r|;
      assert left[..2 + |c|] == Framed(c) && right[..2 + |c|] == Framed(r);
      assert left[2 + |c|..] == Framed(d) && right[2 + |c|..] == Framed(s);
      FrameInjective(c, r);
      FrameInjective(d, s);
    }
  }

  lemma FrameInjective(c: Bytes, d: Bytes)
    requires Framed(c) == Framed(d)
    ensures c == d
  {
    assert Framed(c)[2..] == c && Framed(d)[2..] == d;
  }

  /** For P-256, zero as first number: rejected in canonical form, accepted with one more zero byte. */
  lemma PaddedZeroIsAccepted()
    ensures DerToRaw([0x30, 0x07, 0x02, 0x02, 0x00, 0x00, 0x02, 0x01, 0x01], 32) == Some(Zeros(63) + [0x01])
    ensures DerToRaw([0x30, 0x06, 0x02, 0x01, 0x00, 0x02, 0x01, 0x01], 32) == None
  {
    PaddedZero();
    PlainZero();
  }

  lemma PaddedZero()
    ensures DerToRaw([0x30, 0x07, 0x02, 0x02, 0x00, 0x00, 0x02, 0x01, 0x01], 32) == Some(Zeros(63) + [0x01])
  {
    var c: Bytes, d: Bytes := [0x00, 0x00], [0x01];
    assert [0x30, 0x07, 0x02, 0x02, 0x00, 0x00, 0x02, 0x01, 0x01] == [0x30, 0x07] + (Framed(c) + Framed(d));
    SmallBody(c, d);
    hide ReadBody, ReadSides, Framed;
    PairReads(c, d, 32);
    assert Magnitude(c) == [0x00] && Magnitude(d) == [0x01];
    assert Zeros(31) + [0x00] + (Zeros(31) + [0x01]) == Zeros(63) + [0x01];
  }

  lemma PlainZero()
    ensures DerToRaw([0x30, 0x06, 0x02, 0x01, 0x00, 0x02, 0x01, 0x01], 32) == None
  {
    var c: Bytes, d: Bytes := [0x00], [0x01];
    assert [0x30, 0x06, 0x02, 0x01, 0x00, 0x02, 0x01, 0x01] == [0x30, 0x06] + (Framed(c) + Framed(d));
    SmallBody(c, d);
    hide ReadBody, ReadSides, Framed;
    PairReads(c, d, 32);
  }

  lemma SmallBody(c: Bytes, d: Bytes)
    requires 1 <= |c| <= 2 && |d| == 1
    ensures ReadBody([0x30, 4 + |c| + |d|] + (Framed(c) + Framed(d))) == Some(Framed(c) + Framed(d))
  {
    var body := Framed(c) + Framed(d);
    assert ([0x30, 4 + |c| + |d|] + body)[2..] == body;
  }

  // ----- the conversions as they run -----

  method IntegerFromRaw(raw: Bytes) returns (v: Bytes)
    ensures v == IntegerContent(raw)
  {
    var i := 0;
    while i < |raw| && raw[i] == 0
      invariant 0 <= i <= |raw| && IsZero(raw[..i]) && (i < |raw| ==> IntegerContent(raw[i..]) == IntegerContent(raw))
    {
      assert raw[i..][1..] == raw[i + 1..];
      i := i + 1;
    }
    v := raw[i..];
    if v == [] {
      assert raw[..i] == raw;
      ContentOfZero(raw);
      v := [0];
    } else if v[0] >= 128 {
      v := [0] + v;
    }
  }

  method ConvertRawToDer(raw: Bytes) returns (der: Bytes)
    ensures der == RawToDer(raw)
  {
    hide IntegerContent, ToByte;
    if |raw| == 0 || |raw| % 2 != 0 {
      return [];
    }
    var half := |raw| / 2;
    var r := IntegerFromRaw(raw[..half]);
    var s := IntegerFromRaw(raw[half..]);
    var body := 4 + |r| + |s|;
    der := [0x30, ToByte(body)];
    der := der + [0x02, ToByte(|r|)];
    der := der + r;
    der := der + [0x02, ToByte(|s|)];
    der := der + s;
  }

  /** Copies v into out at the given place. */
  method Place(out: array<Byte>, at: nat, v: Bytes)
    requires at + |v| <= out.Length
    modifies out
    ensures out[..] == old(out[..at]) + v + old(out[at + |v|..])
  {
    for i := 0 to |v|
      invariant out[..at] == old(out[..at]) && out[at..at + i] == v[..i] && out[at + |v|..] == old(out[at + |v|..])
    {
      out[at + i] := v[i];
    }
    assert v[..|v|] == v;
    assert out[..] == out[..at] + out[at..at + |v|] + out[at + |v|..];
  }

  lemma PlacedSide(done: Bytes, v: Bytes, half: nat, after: nat, s: Bytes)
    requires |v| <= half && s == done + Zeros(half + after)
    ensures var at := |done| + half - |v|;
      s[..at] + v + s[at + |v|..] == (done + (Zeros(half - |v|) + v)) + Zeros(after)
  {
  }

  method ConvertDerToRaw(data: Bytes, out: array<Byte>, half: nat) returns (ok: bool)
    requires out.Length == 2 * half
    modifies out
    ensures ok <==> DerToRaw(data, half).Some?
    ensures ok ==> out[..] == DerToRaw(data, half).value
  {
    hide ReadSides, Number;
    var pos: nat := 0;
    if |data| < 6 || data[pos] != 0x30 {
      return false;
    }
    pos := 1;
    var body: nat := data[pos];
    pos := 2;
    if body >= 128 {
      var n := body - 128;
      if n > 2 || pos + n > |data| {
        return false;
      }
      body := 0;
      NoBytes();
      assert data[2..2] == [];
      for i := 0 to n
        invariant pos == 2 + i && body == Number(data[2..pos])
      {
        NumberStep(data[2..pos], data[pos]);
        assert data[2..pos + 1] == data[2..pos] + [data[pos]];
        body := 256 * body + data[pos];
        pos := pos + 1;
      }
    }
    if body != |data| - pos {
      return false;
    }
    hide ReadBody;
    assert ReadBody(data) == Some(data[pos..]);
    ok := ReadPair(data, pos, out, half);
  }

  lemma NumberStep(s: Bytes, b: Byte)
    ensures Number(s + [b]) == 256 * Number(s) + b
  {
    assert (s + [b])[..|s|] == s;
  }

  lemma NoBytes()
    ensures Number([]) == 0
  {
  }

  /** One side: its magnitude is copied to the end of its half of the output. */
  method ReadSideInto(data: Bytes, pos: nat, out: array<Byte>, side: nat, half: nat, ghost done: Bytes)
    returns (ok: bool, next: nat)
    requires out.Length == 2 * half && pos <= |data| && side < 2 && |done| == side * half
    requires out[..] == done + Zeros((2 - side) * half)
    modifies out
    ensures ok == ReadSide(data[pos..], half).Side?
    ensures ok ==> next <= |data| && data[next..] == ReadSide(data[pos..], half).rest
    ensures ok ==> out[..] == (done + ReadSide(data[pos..], half).value) + Zeros((1 - side) * half)
  {
    hide ReadSide, Zeros;
    var v;
    ok, v, next := ReadMagnitude(data, pos, half);
    if ok {
      PlacedSide(done, v, half, (1 - side) * half, out[..]);
      Place(out, side * half + (half - |v|), v);
    }
  }

  /** The bytes of one side without its sign byte, and where the next side begins. */
  method ReadMagnitude(data: Bytes, pos: nat, half: nat) returns (ok: bool, v: Bytes, next: nat)
    requires pos <= |data|
    ensures ok == ReadSide(data[pos..], half).Side?
    ensures ok ==> next <= |data| && |v| <= half
    ensures ok ==> ReadSide(data[pos..], half) == Side(Zeros(half - |v|) + v, data[next..])
  {
    hide ReadSide, Zeros;
    SideStep(data, pos, half);
    next, v := pos, [];
    if pos + 2 > |data| || data[pos] != 0x02 {
      return false, v, next;
    }
    var totalLen := data[pos + 1];
    next := pos + 2;
    if totalLen == 0 || totalLen > half + 1 || next + totalLen > |data| {
      return false, v, next;
    }
    v := data[next..next + totalLen];
    if v[0] == 0 {
      v := v[1..];
    } else if v[0] >= 128 {
      return false, v, next;
    }
    if |v| == 0 || |v| > half {
      return false, v, next;
    }
    next := next + totalLen;
    return true, v, next;
  }

  /** The loop over the two sides. */
  method ReadPair(data: Bytes, start: nat, out: array<Byte>, half: nat) returns (ok: bool)
    requires out.Length == 2 * half && start <= |data|
    modifies out
    ensures ok <==> ReadSides(data[start..], half, 2, []).Some?
    ensures ok ==> out[..] == ReadSides(data[start..], half, 2, []).value
  {
    hide ReadSides, ReadSide, Zeros;
    forall i | 0 <= i < out.Length {
      out[i] := 0;
    }
    ZerosAre(out[..]);
    var pos: nat := start;
    ghost var done: Bytes := [];
    assert done + Zeros(2 * half) == Zeros(2 * half);
    for side := 0 to 2
      invariant pos <= |data| && |done| == side * half
      invariant out[..] == done + Zeros((2 - side) * half)
      invariant ReadSides(data[pos..], half, 2 - side, done) == ReadSides(data[start..], half, 2, [])
    {
      SidesStep(data[pos..], half, 2 - side, done);
      ghost var read := ReadSide(data[pos..], half);
      ok, pos := ReadSideInto(data, pos, out, side, half, done);
      if !ok {
        return;
      }
      done := done + read.value;
    }
    SidesStep(data[pos..], half, 0, done);
    ok := pos == |data|;
    assert done + Zeros(0) == done;
  }

  lemma ZerosAre(s: Bytes)
    requires IsZero(s)
    ensures s == Zeros(|s|)
  {
  }

  lemma SidesStep(s: Bytes, half: nat, count: nat, done: Bytes)
    ensures ReadSides(s, half, count, done) ==
      if count == 0 then if s == [] then Some(done) else None
      else match ReadSide(s, half)
        case NoSide => None
        case Side(v, rest) => ReadSides(rest, half, count - 1, done + v)
  {
  }

  /** ReadSide in terms of a position in the whole input. */
  lemma SideStep(data: Bytes, pos: nat, half: nat)
    requires pos <= |data|
    ensures ReadSide(data[pos..], half) ==
      if pos + 2 > |data| || data[pos] != 0x02 || data[pos + 1] == 0 || data[pos + 1] > half + 1 ||
        pos + 2 + data[pos + 1] > |data| then NoSide
      else
        var c := data[pos + 2..pos + 2 + data[pos + 1]];
        var v := if c[0] == 0 then c[1..] else c;
        if c[0] >= 128 || v == [] || |v| > half then NoSide
        else Side(Zeros(half - |v|) + v, data[pos + 2 + data[pos + 1]..])
  {
    if pos + 2 <= |data| {
      var s := data[pos..];
      assert s[0] == data[pos] && s[1] == data[pos + 1];
      if s[1] <= |s| - 2 {
        assert s[2..2 + s[1]] == data[pos + 2..pos + 2 + data[pos + 1]];
        assert s[2 + s[1]..] == data[pos + 2 + data[pos + 1]..];
      }
    }
  }
}
