/** DER: definite lengths in minimal form, tag-length-value elements and non-negative INTEGERs
    (section 10.1 of ITU-T X.690). */
module Der {
  type Byte = b: int | 0 <= b < 256
  type Bytes = seq<Byte>

  /** One more than the largest size_t. */
  const SIZE_LIMIT: nat := 0x1_0000_0000_0000_0000

  function Zeros(n: nat): (r: Bytes)
    ensures |r| == n
  {
    seq(n, _ => 0)
  }

  // ----- lengths -----

  /** n in base 256, most significant byte first, without leading zeros. */
  function Digits(n: nat): (r: Bytes) {
    if n == 0 then [] else Digits(n / 256) + [n % 256]
  }

  function Number(s: Bytes): (n: nat) {
    if s == [] then 0 else 256 * Number(s[..|s| - 1]) + s[|s| - 1]
  }

  lemma {:induction false} DigitsRoundTrip(n: nat)
    ensures Number(Digits(n)) == n
    ensures n > 0 ==> Digits(n) != [] && Digits(n)[0] != 0
  {
    if n > 0 {
      DigitsRoundTrip(n / 256);
      assert Digits(n)[..|Digits(n)| - 1] == Digits(n / 256);
      if n / 256 > 0 {
        assert Digits(n)[0] == Digits(n / 256)[0];
      }
    }
  }

  lemma {:induction false} NumberRoundTrip(s: Bytes)
    requires s != [] && s[0] != 0
    ensures Digits(Number(s)) == s && Number(s) > 0
  {
    var init, last := s[..|s| - 1], s[|s| - 1];
    assert s == init + [last];
    NumberUnfolds(s);
    hide Digits, Number;
    if init != [] {
      assert init[0] == s[0];
      NumberRoundTrip(init);
    }
    DigitAppended(Number(init), last);
  }

  lemma NumberUnfolds(s: Bytes)
    requires s != []
    ensures Number(s) == 256 * Number(s[..|s| - 1]) + s[|s| - 1] && Number([]) == 0 && Digits(0) == []
  {
  }

  lemma DigitAppended(n: nat, d: Byte)
    requires n > 0 || d > 0
    ensures Digits(256 * n + d) == Digits(n) + [d]
  {
    LastDigit(n, d);
  }

  lemma LastDigit(n: nat, d: Byte)
    ensures (256 * n + d) / 256 == n && (256 * n + d) % 256 == d
  {
  }

  function Power(n: nat): (r: nat)
    ensures r > 0
  {
    if n == 0 then 1 else 256 * Power(n - 1)
  }

  lemma {:induction false} DigitsFit(n: nat, width: nat)
    requires n < Power(width)
    ensures |Digits(n)| <= width
  {
    if n > 0 {
      DigitsFit(n / 256, width - 1);
    }
  }

  lemma {:induction false} NumberFits(s: Bytes)
    ensures Number(s) < Power(|s|)
  {
    if s != [] {
      NumberFits(s[..|s| - 1]);
    }
  }

  lemma SizeLimitIsPower()
    ensures Power(8) == SIZE_LIMIT
  {
    assert Power(4) == 0x1_0000_0000;
    assert Power(8) == 256 * 256 * 256 * 256 * Power(4);
  }

  lemma SizeDigits(n: nat)
    requires n < SIZE_LIMIT
    ensures |Digits(n)| <= 8
  {
    SizeLimitIsPower();
    DigitsFit(n, 8);
  }

  function EncodeLength(n: nat): (r: Bytes)
    requires n < SIZE_LIMIT
    ensures r != []
  {
    if n < 128 then [n] else
      SizeDigits(n);
      [128 + |Digits(n)|] + Digits(n)
  }

  // ----- elements -----

  function Tlv(tag: Byte, content: Bytes): (r: Bytes)
    requires |content| < SIZE_LIMIT
    ensures |r| > |content|
  {
    [tag] + EncodeLength(|content|) + content
  }

  /** A read leaves the reader where it stopped, also when it fails. */
  datatype LengthRead = Length(value: nat, rest: Bytes) | NoLength(rest: Bytes)
  datatype Element = Got(content: Bytes, rest: Bytes) | Missed(rest: Bytes)

  function ReadLength(s: Bytes): (r: LengthRead)
    ensures |r.rest| <= |s|
  {
    if s == [] then NoLength(s)
    else if s[0] < 128 then Length(s[0], s[1..])
    else
      var count := s[0] - 128;
      if count == 0 || count > 8 || count > |s| - 1 || s[1] == 0 then NoLength(s[1..])
      else if Number(s[1..1 + count]) < 128 then NoLength(s[1 + count..])
      else Length(Number(s[1..1 + count]), s[1 + count..])
  }

  function ReadElement(s: Bytes, tag: Byte): (r: Element)
    ensures |r.rest| <= |s| && (r.Got? ==> |r.rest| < |s|)
  {
    if s == [] || s[0] != tag then Missed(s)
    else
      match ReadLength(s[1..])
      case NoLength(rest) => Missed(rest)
      case Length(n, rest) => if n > |rest| then Missed(rest) else Got(rest[..n], rest[n..])
  }

  lemma LengthReads(n: nat, rest: Bytes)
    requires n < SIZE_LIMIT
    ensures ReadLength(EncodeLength(n) + rest) == Length(n, rest)
  {
    var s := EncodeLength(n) + rest;
    if n < 128 {
      assert s[1..] == rest;
    } else {
      SizeDigits(n);
      DigitsRoundTrip(n);
      var d := Digits(n);
      assert s == [128 + |d|] + d + rest;
      assert s[1..1 + |d|] == d && s[1 + |d|..] == rest && s[1] == d[0];
    }
  }

  /** What ReadLength accepts is the encoding of the length, and no other encoding of it. */
  lemma ReadLengthIsEncoded(s: Bytes)
    requires ReadLength(s).Length?
    ensures ReadLength(s).value < SIZE_LIMIT && s == EncodeLength(ReadLength(s).value) + ReadLength(s).rest
  {
    if s[0] >= 128 {
      var count := s[0] - 128;
      var d := s[1..1 + count];
      assert d[0] == s[1];
      NumberRoundTrip(d);
      NumberFits(d);
      SizeLimitIsPower();
      PowerGrows(count, 8);
      assert s == [s[0]] + d + s[1 + count..];
    } else {
      assert s == [s[0]] + s[1..];
    }
  }

  lemma {:induction false} PowerGrows(a: nat, b: nat)
    requires a <= b
    ensures Power(a) <= Power(b)
  {
    if a < b {
      PowerGrows(a, b - 1);
    }
  }

  /** Reading a written element returns its content and leaves what follows. */
  lemma TlvReads(tag: Byte, content: Bytes, rest: Bytes)
    requires |content| < SIZE_LIMIT
    ensures ReadElement(Tlv(tag, content) + rest, tag) == Got(content, rest)
  {
    var s := Tlv(tag, content) + rest;
    assert s[1..] == EncodeLength(|content|) + (content + rest);
    LengthReads(|content|, content + rest);
    assert (content + rest)[..|content|] == content && (content + rest)[|content|..] == rest;
  }

  /** Whatever is accepted is exactly the written element: one encoding per content. */
  lemma ReadIsTlv(s: Bytes, tag: Byte)
    requires ReadElement(s, tag).Got?
    ensures var r := ReadElement(s, tag); |r.content| < SIZE_LIMIT && s == Tlv(tag, r.content) + r.rest
  {
    var length := ReadLength(s[1..]);
    ReadLengthIsEncoded(s[1..]);
    hide ReadLength, EncodeLength;
    Splits(s[0], EncodeLength(length.value), length.rest, length.value, s);
  }

  lemma Splits(tag: Byte, encoded: Bytes, rest: Bytes, n: nat, s: Bytes)
    requires s != [] && s[0] == tag && s[1..] == encoded + rest && n <= |rest|
    ensures s == [tag] + encoded + rest[..n] + rest[n..]
  {
    assert rest == rest[..n] + rest[n..];
    assert s == [s[0]] + s[1..];
  }

  // ----- INTEGER -----

  /** Leading zeros stripped down to one byte; nothing stands for zero. */
  function Stripped(v: Bytes): (r: Bytes)
    ensures r != [] && |r| <= |v| + 1 && (r[0] != 0 || |r| == 1)
  {
    if v == [] then [0] else if |v| > 1 && v[0] == 0 then Stripped(v[1..]) else v
  }

  /** The content octets of a non-negative INTEGER: a zero byte in front when the sign bit is set. */
  function IntegerContent(v: Bytes): (r: Bytes)
    ensures r != [] && |r| <= |v| + 1
  {
    if v == [] then [0]
    else if |v| > 1 && v[0] == 0 then IntegerContent(v[1..])
    else if v[0] >= 128 then [0] + v
    else v
  }

  function Integer(v: Bytes): (r: Bytes)
    requires |IntegerContent(v)| < SIZE_LIMIT
  {
    Tlv(0x02, IntegerContent(v))
  }

  predicate MinimalNonNegative(c: Bytes) {
    c != [] && c[0] < 128 && !(|c| > 1 && c[0] == 0 && c[1] < 128)
  }

  datatype Field = Value(value: Bytes, rest: Bytes) | NoValue

  function ReadInteger(s: Bytes): (r: Field)
    ensures r.Value? ==> |r.rest| < |s|
  {
    match ReadElement(s, 0x02)
    case Missed(_) => NoValue
    case Got(c, rest) => if MinimalNonNegative(c) then Value(Stripped(c), rest) else NoValue
  }

  lemma {:induction false} ContentIsMinimal(v: Bytes)
    ensures MinimalNonNegative(IntegerContent(v)) && Stripped(IntegerContent(v)) == Stripped(v)
  {
    if |v| > 1 && v[0] == 0 {
      ContentIsMinimal(v[1..]);
    } else if v != [] && v[0] >= 128 {
      assert ([0] + v)[1..] == v;
    }
  }

  lemma MinimalIsContent(c: Bytes)
    requires MinimalNonNegative(c)
    ensures IntegerContent(Stripped(c)) == c
  {
    if |c| > 1 && c[0] == 0 {
      assert c == [0] + c[1..] && Stripped(c) == c[1..];
    }
  }

  /** A written INTEGER reads back with only its leading zeros stripped. */
  lemma IntegerReads(v: Bytes, rest: Bytes)
    requires |IntegerContent(v)| < SIZE_LIMIT
    ensures ReadInteger(Integer(v) + rest) == Value(Stripped(v), rest)
  {
    TlvReads(0x02, IntegerContent(v), rest);
    ContentIsMinimal(v);
  }

  /** Every accepted INTEGER is the written form of the value it returns. */
  lemma ReadIntegerIsWritten(s: Bytes)
    requires ReadInteger(s).Value?
    ensures var r := ReadInteger(s);
      |IntegerContent(r.value)| < SIZE_LIMIT && s == Integer(r.value) + r.rest && Stripped(r.value) == r.value
  {
    ReadIsTlv(s, 0x02);
    MinimalIsContent(ReadElement(s, 0x02).content);
  }

  lemma {:induction false} LeadingZero(v: Bytes)
    ensures Number([0] + v) == Number(v)
  {
    var w := [0] + v;
    if v == [] {
      assert w[..0] == [];
      assert Number(w[..0]) == 0;
    } else {
      assert w[..|w| - 1] == [0] + v[..|v| - 1];
      LeadingZero(v[..|v| - 1]);
    }
  }

  /** The content octets are the number itself, in as few octets as leave it non-negative (section 8.3 of
      ITU-T X.690). */
  lemma IntegerContentMeans(v: Bytes)
    ensures MinimalNonNegative(IntegerContent(v)) && Number(IntegerContent(v)) == Number(v)
  {
    ContentIsMinimal(v);
    ContentNumber(v);
  }

  lemma {:induction false} ContentNumber(v: Bytes)
    ensures Number(IntegerContent(v)) == Number(v)
    decreases |v|
  {
    hide Number;
    ZeroNumber();
    if |v| > 1 && v[0] == 0 {
      ContentNumber(v[1..]);
      assert v == [0] + v[1..];
      LeadingZero(v[1..]);
    } else if v != [] {
      LeadingZero(v);
    }
  }

  lemma ZeroNumber()
    ensures Number([]) == 0 && Number([0]) == 0
  {
    LeadingZero([]);
    assert [0] + [] == [0];
  }

  /** The tag, the length in one octet or after a count of its octets, most significant first, and the
      content (section 8.1.3 of ITU-T X.690). */
  lemma TlvForms(tag: Byte, content: Bytes)
    requires |content| < 0x1_0000
    ensures Tlv(tag, content) ==
      if |content| < 128 then [tag, |content|] + content
      else if |content| < 256 then [tag, 0x81, |content|] + content
      else [tag, 0x82, |content| / 256, |content| % 256] + content
  {
    var n := |content|;
    if 128 <= n < 256 {
      OneDigit(n);
    } else if n >= 256 {
      OneDigit(n / 256);
      assert Digits(n) == [n / 256] + [n % 256];
    }
  }

  lemma OneDigit(n: nat)
    requires 0 < n < 256
    ensures Digits(n) == [n]
  {
    assert n / 256 == 0 && n % 256 == n;
    assert Digits(0) == [];
  }

  // ----- BIT STRING -----

  function BitString(v: Bytes): (r: Bytes)
    requires |v| + 1 < SIZE_LIMIT
  {
    Tlv(0x03, [0] + v)
  }

  function ReadBitString(s: Bytes): (r: Field)
    ensures r.Value? ==> |r.rest| < |s|
  {
    match ReadElement(s, 0x03)
    case Missed(_) => NoValue
    case Got(c, rest) => if c == [] || c[0] != 0 then NoValue else Value(c[1..], rest)
  }

  lemma BitStringReads(v: Bytes, rest: Bytes)
    requires |v| + 1 < SIZE_LIMIT
    ensures ReadBitString(BitString(v) + rest) == Value(v, rest)
  {
    TlvReads(0x03, [0] + v, rest);
    assert ([0] + v)[1..] == v;
  }
}
