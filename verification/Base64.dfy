/** Base64 with canonical padding (sections 3.5 and 4 of RFC 4648) and hexadecimal text. */
module Base64 {
  import opened Wrappers
  import Der

  type Byte = Der.Byte
  type Bytes = Der.Bytes

  const MAX_OUTPUT: nat := 16 * 1024 * 1024

  // ----- symbols -----

  /** Entry n of the alphabet: upper case, lower case, digits, plus and slash. */
  function Symbol(n: nat): (c: char)
    requires n < 64
  {
    if n < 26 then ('A' as int + n) as char
    else if n < 52 then ('a' as int + n - 26) as char
    else if n < 62 then ('0' as int + n - 52) as char
    else if n == 62 then '+'
    else '/'
  }

  /** The value of a symbol, -1 for any other character. */
  function SymbolValue(c: char): (n: int)
    ensures -1 <= n < 64
  {
    if 'A' <= c <= 'Z' then c as int - 'A' as int
    else if 'a' <= c <= 'z' then c as int - 'a' as int + 26
    else if '0' <= c <= '9' then c as int - '0' as int + 52
    else if c == '+' then 62
    else if c == '/' then 63
    else -1
  }

  lemma SymbolRoundTrip(n: nat)
    requires n < 64
    ensures SymbolValue(Symbol(n)) == n && Symbol(n) != '='
  {
  }

  lemma ValueRoundTrip(c: char)
    requires SymbolValue(c) >= 0
    ensures Symbol(SymbolValue(c)) == c
  {
  }

  // ----- groups -----

  /** Three bytes, the missing ones as zero, packed into 24 bits. */
  function Packed(a: int, b: int, c: int): (v: nat)
    requires 0 <= a < 256 && 0 <= b < 256 && 0 <= c < 256
    ensures v < 0x100_0000
  {
    65536 * a + 256 * b + c
  }

  function EncodeGroup(d: Bytes): (t: string)
    requires 1 <= |d| <= 3
    ensures |t| == 4
  {
    var v := Packed(d[0], if |d| > 1 then d[1] else 0, if |d| > 2 then d[2] else 0);
    [Symbol(v / 262144 % 64), Symbol(v / 4096 % 64),
     if |d| > 1 then Symbol(v / 64 % 64) else '=', if |d| > 2 then Symbol(v % 64) else '=']
  }

  function Encode(d: Bytes): (t: string)
    decreases |d|
  {
    if d == [] then [] else if |d| <= 3 then EncodeGroup(d) else EncodeGroup(d[..3]) + Encode(d[3..])
  }

  /** The value of a symbol, or zero for padding. */
  function Padded(c: char): (n: int) {
    if c == '=' then 0 else SymbolValue(c)
  }

  function DecodeGroup(t: string, last: bool): (r: Option<Bytes>)
    requires |t| == 4
    ensures r.Some? ==> 1 <= |r.value| <= 3
  {
    var a, b, c, d := SymbolValue(t[0]), SymbolValue(t[1]), Padded(t[2]), Padded(t[3]);
    if a < 0 || b < 0 || c < 0 || d < 0 || (!last && (t[2] == '=' || t[3] == '=')) then None
    else if last && ((t[2] == '=' && t[3] != '=') || (t[2] == '=' && b % 16 != 0) ||
      (t[3] == '=' && t[2] != '=' && c % 4 != 0)) then None
    else
      var v := 262144 * a + 4096 * b + 64 * c + d;
      Some([v / 65536 % 256] + (if t[2] != '=' then [v / 256 % 256] else []) + if t[3] != '=' then [v % 256] else [])
  }

  function DecodeGroups(t: string): (r: Option<Bytes>)
    requires |t| % 4 == 0
    decreases |t|
  {
    if t == [] then Some([])
    else
      var first, rest := DecodeGroup(t[..4], |t| == 4), DecodeGroups(t[4..]);
      if first.None? || rest.None? then None else Some(first.value + rest.value)
  }

  lemma Divides(v: int, m: int, q: int, r: int)
    requires m > 0 && v == m * q + r && 0 <= r < m
    ensures v / m == q && v % m == r
  {
    var d := v / m - q;
    assert v == m * (v / m) + v % m;
    assert m * d == r - v % m by {
      assert m * d == m * (v / m) - m * q;
    }
    Scales(m, d);
  }

  lemma Scales(m: int, d: int)
    requires m > 0
    ensures (d >= 1 ==> m * d >= m) && (d <= -1 ==> m * d <= -m)
  {
  }

  lemma Sextets(a: int, b: int, c: int)
    requires 0 <= a < 256 && 0 <= b < 256 && 0 <= c < 256
    ensures var v := Packed(a, b, c);
      && v / 262144 % 64 == a / 4 && v / 4096 % 64 == a % 4 * 16 + b / 16
      && v / 64 % 64 == b % 16 * 4 + c / 64 && v % 64 == c % 64
  {
    var v := Packed(a, b, c);
    var a1, a0, b1, b0, c1, c0 := a / 4, a % 4, b / 16, b % 16, c / 64, c % 64;
    assert a == 4 * a1 + a0 && b == 16 * b1 + b0 && c == 64 * c1 + c0;
    assert 0 <= a1 < 64 && 0 <= a0 < 4 && 0 <= b1 < 16 && 0 <= b0 < 16 && 0 <= c1 < 4 && 0 <= c0 < 64;
    Divides(v, 262144, a1, 65536 * a0 + 256 * b + c);
    Divides(a1, 64, 0, a1);
    Divides(v, 4096, 64 * a1 + (16 * a0 + b1), 256 * b0 + c);
    Divides(64 * a1 + (16 * a0 + b1), 64, a1, 16 * a0 + b1);
    var high := 1024 * a + 4 * b + c1;
    Divides(v, 64, high, c0);
    Divides(high, 64, 16 * a + b1, 4 * b0 + c1);
  }

  lemma Octets(a: int, b: int, c: int, d: int)
    requires 0 <= a < 64 && 0 <= b < 64 && 0 <= c < 64 && 0 <= d < 64
    ensures var v := 262144 * a + 4096 * b + 64 * c + d;
      && v / 65536 % 256 == a * 4 + b / 16 && v / 256 % 256 == b % 16 * 16 + c / 4 && v % 256 == c % 4 * 64 + d
  {
    var v := 262144 * a + 4096 * b + 64 * c + d;
    var b1, b0, c1, c0 := b / 16, b % 16, c / 4, c % 4;
    assert b == 16 * b1 + b0 && c == 4 * c1 + c0;
    assert 0 <= b1 < 4 && 0 <= b0 < 16 && 0 <= c1 < 16 && 0 <= c0 < 4;
    Divides(v, 65536, 4 * a + b1, 4096 * b0 + 64 * c + d);
    Divides(4 * a + b1, 256, 0, 4 * a + b1);
    var high := 1024 * a + 16 * b + c1;
    Divides(v, 256, high, 64 * c0 + d);
    Divides(high, 256, 4 * a + b1, 16 * b0 + c1);
  }

  lemma EncodeGroupIs(d: Bytes)
    requires 1 <= |d| <= 3
    ensures var a, b, c := d[0], if |d| > 1 then d[1] else 0, if |d| > 2 then d[2] else 0;
      && 0 <= a % 4 * 16 + b / 16 < 64 && 0 <= b % 16 * 4 + c / 64 < 64
      && EncodeGroup(d) == [Symbol(a / 4), Symbol(a % 4 * 16 + b / 16),
           if |d| > 1 then Symbol(b % 16 * 4 + c / 64) else '=', if |d| > 2 then Symbol(c % 64) else '=']
  {
    hide Packed, Symbol;
    Sextets(d[0], if |d| > 1 then d[1] else 0, if |d| > 2 then d[2] else 0);
  }

  lemma DecodeGroupIs(t: string, last: bool)
    requires |t| == 4
    requires SymbolValue(t[0]) >= 0 && SymbolValue(t[1]) >= 0 && Padded(t[2]) >= 0 && Padded(t[3]) >= 0
    requires t[2] != '=' || t[3] != '=' ==> t[2] != '='
    requires last || t[3] != '='
    requires t[2] == '=' ==> SymbolValue(t[1]) % 16 == 0
    requires t[2] != '=' && t[3] == '=' ==> Padded(t[2]) % 4 == 0
    ensures var s0, s1, s2, s3 := SymbolValue(t[0]), SymbolValue(t[1]), Padded(t[2]), Padded(t[3]);
      && 0 <= s0 * 4 + s1 / 16 < 256 && 0 <= s1 % 16 * 16 + s2 / 4 < 256 && 0 <= s2 % 4 * 64 + s3 < 256
      && DecodeGroup(t, last) == Some([s0 * 4 + s1 / 16] + (if t[2] != '=' then [s1 % 16 * 16 + s2 / 4] else []) +
           if t[3] != '=' then [s2 % 4 * 64 + s3] else [])
  {
    hide SymbolValue;
    Octets(SymbolValue(t[0]), SymbolValue(t[1]), Padded(t[2]), Padded(t[3]));
  }

  lemma GroupDecodes(d: Bytes, last: bool)
    requires 1 <= |d| <= 3 && (last || |d| == 3)
    ensures DecodeGroup(EncodeGroup(d), last) == Some(d)
  {
    hide Symbol, SymbolValue, EncodeGroup, DecodeGroup;
    var a, b, c := d[0], if |d| > 1 then d[1] else 0, if |d| > 2 then d[2] else 0;
    EncodeGroupIs(d);
    var t := EncodeGroup(d);
    SymbolRoundTrip(a / 4);
    SymbolRoundTrip(a % 4 * 16 + b / 16);
    SymbolRoundTrip(b % 16 * 4 + c / 64);
    SymbolRoundTrip(c % 64);
    Regroup(a, b, c);
    DecodeGroupIs(t, last);
    assert d == [a] + (if |d| > 1 then [b] else []) + if |d| > 2 then [c] else [];
  }

  lemma Regroup(a: int, b: int, c: int)
    requires 0 <= a < 256 && 0 <= b < 256 && 0 <= c < 256
    ensures var s0, s1, s2, s3 := a / 4, a % 4 * 16 + b / 16, b % 16 * 4 + c / 64, c % 64;
      && s0 * 4 + s1 / 16 == a && s1 % 16 * 16 + s2 / 4 == b && s2 % 4 * 64 + s3 == c
      && (b == 0 ==> s1 % 16 == 0) && (c == 0 ==> s2 % 4 == 0)
  {
    var a1, a0, b1, b0, c1, c0 := a / 4, a % 4, b / 16, b % 16, c / 64, c % 64;
    Divides(a0 * 16 + b1, 16, a0, b1);
    Divides(b0 * 4 + c1, 4, b0, c1);
  }

  lemma Ungroup(s0: int, s1: int, s2: int, s3: int)
    requires 0 <= s0 < 64 && 0 <= s1 < 64 && 0 <= s2 < 64 && 0 <= s3 < 64
    ensures var a, b, c := s0 * 4 + s1 / 16, s1 % 16 * 16 + s2 / 4, s2 % 4 * 64 + s3;
      && 0 <= a < 256 && 0 <= b < 256 && 0 <= c < 256
      && a / 4 == s0 && a % 4 * 16 + b / 16 == s1 && b % 16 * 4 + c / 64 == s2 && c % 64 == s3
  {
    var a, b, c := s0 * 4 + s1 / 16, s1 % 16 * 16 + s2 / 4, s2 % 4 * 64 + s3;
    Divides(a, 4, s0, s1 / 16);
    Divides(b, 16, s1 % 16, s2 / 4);
    Divides(c, 64, s2 % 4, s3);
  }

  /** Only canonical groups decode: the unused bits of a padded group must be zero. */
  lemma GroupEncodes(t: string, last: bool)
    requires |t| == 4 && DecodeGroup(t, last).Some?
    ensures EncodeGroup(DecodeGroup(t, last).value) == t
    ensures |DecodeGroup(t, last).value| == 3 || last
  {
    hide Packed, Symbol, SymbolValue;
    var d := DecodeGroup(t, last).value;
    var s0, s1, s2, s3 := SymbolValue(t[0]), SymbolValue(t[1]), Padded(t[2]), Padded(t[3]);
    Octets(s0, s1, s2, s3);
    Ungroup(s0, s1, s2, s3);
    var a, b, c := s0 * 4 + s1 / 16, s1 % 16 * 16 + s2 / 4, s2 % 4 * 64 + s3;
    assert d == [a] + (if t[2] != '=' then [b] else []) + if t[3] != '=' then [c] else [];
    assert t[2] == '=' ==> t[3] == '=' && b == 0 && c == 0;
    assert t[3] == '=' ==> c == 0;
    ValueRoundTrip(t[0]);
    ValueRoundTrip(t[1]);
    if t[2] != '=' {
      ValueRoundTrip(t[2]);
    }
    if t[3] != '=' {
      ValueRoundTrip(t[3]);
    }
    Sextets(a, b, c);
    hide DecodeGroup;
    assert d[0] == a && (|d| > 1 <==> t[2] != '=') && (|d| > 2 <==> t[3] != '=');
    assert |d| > 1 ==> d[1] == b;
    assert |d| > 2 ==> d[2] == c;
    assert EncodeGroup(d) == [t[0], t[1], t[2], t[3]];
  }

  lemma {:induction false} EncodeLength(d: Bytes)
    ensures |Encode(d)| == (|d| + 2) / 3 * 4
    decreases |d|
  {
    hide EncodeGroup;
    if |d| > 3 {
      EncodeLength(d[3..]);
      assert |d[3..]| == |d| - 3;
      Thirds(|d|);
    }
  }

  lemma Thirds(n: nat)
    requires n >= 3
    ensures (n + 2) / 3 == (n - 3 + 2) / 3 + 1
  {
  }

  /** Every byte string survives. */
  lemma {:induction false} EncodedDecodes(d: Bytes)
    ensures |Encode(d)| % 4 == 0 && DecodeGroups(Encode(d)) == Some(d)
    decreases |d|
  {
    EncodeLength(d);
    hide EncodeGroup, DecodeGroup;
    var t := Encode(d);
    if d == [] {
    } else if |d| <= 3 {
      GroupDecodes(d, true);
      assert t[..4] == t && t[4..] == [] && d + [] == d;
    } else {
      GroupDecodes(d[..3], false);
      EncodedDecodes(d[3..]);
      EncodeLength(d[3..]);
      assert t[..4] == EncodeGroup(d[..3]) && t[4..] == Encode(d[3..]);
      assert d[..3] + d[3..] == d;
    }
  }

  /** Every accepted text is the encoding of what it decodes to. */
  lemma {:induction false} DecodedEncodes(t: string)
    requires |t| % 4 == 0 && DecodeGroups(t).Some?
    ensures Encode(DecodeGroups(t).value) == t
    decreases |t|
  {
    hide EncodeGroup, DecodeGroup;
    if t != [] {
      var head, tail := t[..4], t[4..];
      var first, rest := DecodeGroup(head, |t| == 4).value, DecodeGroups(tail).value;
      GroupEncodes(head, |t| == 4);
      DecodedEncodes(tail);
      assert t == head + tail;
      if |t| == 4 {
        assert tail == [] && first + rest == first;
      } else {
        assert rest != [] by {
          assert Encode(rest) == tail;
        }
        assert (first + rest)[..3] == first && (first + rest)[3..] == rest;
      }
    }
  }

  // ----- the order of bits -----

  /** The first octet fills the high bits of a group: with octets a, b and c the symbols stand for
      six bits each, from the highest on. */
  lemma GroupIsBigEndian(a: nat, b: nat, c: nat)
    requires a < 256 && b < 256 && c < 256
    ensures EncodeGroup([a, b, c]) == [Symbol(a / 4), Symbol(a % 4 * 16 + b / 16), Symbol(b % 16 * 4 + c / 64),
      Symbol(c % 64)]
    ensures EncodeGroup([a, b]) == [Symbol(a / 4), Symbol(a % 4 * 16 + b / 16), Symbol(b % 16 * 4), '=']
    ensures EncodeGroup([a]) == [Symbol(a / 4), Symbol(a % 4 * 16), '=', '=']
  {
    SextetsOf(a, b, c);
    SextetsOf(a, b, 0);
    SextetsOf(a, 0, 0);
    hide Symbol, Packed;
  }

  lemma SextetsOf(a: nat, b: nat, c: nat)
    requires a < 256 && b < 256 && c < 256
    ensures var v := Packed(a, b, c);
      && v / 262144 % 64 == a / 4 && v / 4096 % 64 == a % 4 * 16 + b / 16
      && v / 64 % 64 == b % 16 * 4 + c / 64 && v % 64 == c % 64
  {
    var a1, a0, b1, b0, c1, c0 := a / 4, a % 4, b / 16, b % 16, c / 64, c % 64;
    var v := Packed(a, b, c);
    var s1, s2 := a0 * 16 + b1, b0 * 4 + c1;
    Divides(v, 262144, a1, s1 * 4096 + s2 * 64 + c0);
    Divides(v, 4096, a1 * 64 + s1, s2 * 64 + c0);
    Divides(v, 64, a1 * 4096 + s1 * 64 + s2, c0);
    Divides(a1 * 64 + s1, 64, a1, s1);
    Divides(a1 * 4096 + s1 * 64 + s2, 64, a1 * 64 + s1, s2);
  }

  // ----- the limited operations -----

  function Base64Encode(d: Bytes): (r: Option<string>) {
    if |d| > MAX_OUTPUT / 4 * 3 then None else Some(Encode(d))
  }

  function Padding(t: string): (n: nat) {
    (if |t| > 0 && t[|t| - 1] == '=' then 1 else 0) + if |t| > 1 && t[|t| - 2] == '=' then 1 else 0
  }

  function Base64Decode(t: string): (r: Option<Bytes>) {
    if |t| % 4 != 0 || |t| / 4 * 3 < Padding(t) || |t| / 4 * 3 - Padding(t) > MAX_OUTPUT then None else DecodeGroups(t)
  }

  /** What is encoded decodes to itself. */
  lemma Base64RoundTrip(d: Bytes)
    requires Base64Encode(d).Some?
    ensures Base64Decode(Base64Encode(d).value) == Some(d)
  {
    EncodeLength(d);
    EncodedDecodes(d);
    hide Encode, DecodeGroups;
    var t := Encode(d);
    SizesFit(|d|);
    assert |t| == 0 ==> Padding(t) == 0;
  }

  lemma SizesFit(n: nat)
    requires n <= MAX_OUTPUT / 4 * 3
    ensures var length := (n + 2) / 3 * 4;
      length % 4 == 0 && length / 4 * 3 <= MAX_OUTPUT && (length > 0 ==> length / 4 * 3 >= 3)
  {
    var groups := (n + 2) / 3;
    assert groups * 4 / 4 == groups;
  }

  /** What decodes is the encoding of its value: one text per value. Encoding refuses it only above
      its own, smaller, limit. */
  lemma Base64IsCanonical(t: string)
    requires Base64Decode(t).Some?
    ensures var d := Base64Decode(t).value;
      Encode(d) == t && Base64Encode(d) == if |d| <= MAX_OUTPUT / 4 * 3 then Some(t) else None
  {
    DecodedEncodes(t);
  }

  lemma GroupPadding(d: Bytes)
    requires 1 <= |d| <= 3
    ensures Padding(EncodeGroup(d)) == 3 - |d|
  {
    hide Symbol, Packed;
    var v := Packed(d[0], if |d| > 1 then d[1] else 0, if |d| > 2 then d[2] else 0);
    SymbolRoundTrip(v / 64 % 64);
    SymbolRoundTrip(v % 64);
  }

  lemma PaddingBehind(t: string, u: string)
    requires |u| >= 2
    ensures Padding(t + u) == Padding(u)
  {
  }

  /** Three bytes for every group of an encoding, less its padding. */
  lemma {:induction false} EncodeSize(d: Bytes)
    ensures 3 * |Encode(d)| == 4 * (|d| + Padding(Encode(d))) && (d != [] ==> |Encode(d)| >= 4)
    decreases |d|
  {
    hide EncodeGroup;
    if d == [] {
    } else if |d| <= 3 {
      GroupPadding(d);
    } else {
      hide Padding;
      EncodeSize(d[3..]);
      PaddingBehind(EncodeGroup(d[..3]), Encode(d[3..]));
    }
  }

  /** The decoder inverts the encoding on everything up to its own limit and accepts nothing else. */
  lemma Base64DecodesIff(t: string, d: Bytes)
    ensures Base64Decode(t) == Some(d) <==> t == Encode(d) && |d| <= MAX_OUTPUT
  {
    hide Encode, DecodeGroups;
    EncodeSize(d);
    EncodedDecodes(d);
    if Base64Decode(t) == Some(d) {
      DecodedEncodes(t);
    }
  }

  // ----- hexadecimal -----

  function HexDigit(n: nat): (c: char)
    requires n < 16
  {
    if n < 10 then ('0' as int + n) as char else ('a' as int + n - 10) as char
  }

  function Nibble(c: char): (n: int)
    ensures -1 <= n < 16
  {
    if '0' <= c <= '9' then c as int - '0' as int
    else if 'a' <= c <= 'f' then c as int - 'a' as int + 10
    else if 'A' <= c <= 'F' then c as int - 'A' as int + 10
    else -1
  }

  function Hex(d: Bytes): (t: string)
    ensures |t| == 2 * |d|
  {
    if d == [] then [] else [HexDigit(d[0] / 16), HexDigit(d[0] % 16)] + Hex(d[1..])
  }

  function Unhex(t: string): (r: Option<Bytes>)
    requires |t| % 2 == 0
    decreases |t|
  {
    if t == [] then Some([])
    else
      var rest := Unhex(t[2..]);
      if Nibble(t[0]) < 0 || Nibble(t[1]) < 0 || rest.None? then None
      else Some([16 * Nibble(t[0]) + Nibble(t[1])] + rest.value)
  }

  function Lower(c: char): (r: char) {
    if 'A' <= c <= 'Z' then (c as int - 'A' as int + 'a' as int) as char else c
  }

  function LowerText(t: string): (r: string) {
    seq(|t|, i requires 0 <= i < |t| => Lower(t[i]))
  }

  lemma NibbleDigit(n: nat, c: char)
    requires n < 16
    ensures Nibble(HexDigit(n)) == n
    ensures Nibble(c) == n ==> HexDigit(n) == Lower(c)
  {
  }

  lemma {:induction false} HexDecodes(d: Bytes)
    ensures |Hex(d)| % 2 == 0 && Unhex(Hex(d)) == Some(d)
    decreases |d|
  {
    if d != [] {
      HexDecodes(d[1..]);
      hide HexDigit, Nibble;
      NibbleDigit(d[0] / 16, 'x');
      NibbleDigit(d[0] % 16, 'x');
      assert Hex(d)[2..] == Hex(d[1..]);
      assert d == [d[0]] + d[1..];
    }
  }

  /** Accepted hexadecimal text is the encoding of its value, up to upper case. */
  lemma {:induction false} HexEncodes(t: string)
    requires |t| % 2 == 0 && Unhex(t).Some?
    ensures Hex(Unhex(t).value) == LowerText(t)
    decreases |t|
  {
    if t != [] {
      HexEncodes(t[2..]);
      hide HexDigit, Nibble, Lower;
      var hi, lo := Nibble(t[0]), Nibble(t[1]);
      NibbleDigit(hi, t[0]);
      NibbleDigit(lo, t[1]);
      Divides(16 * hi + lo, 16, hi, lo);
      var d := Unhex(t).value;
      assert d[0] == 16 * hi + lo && d[1..] == Unhex(t[2..]).value;
      assert LowerText(t) == [Lower(t[0]), Lower(t[1])] + LowerText(t[2..]);
    }
  }

  // ----- the loops -----

  method EncodeBase64(d: Bytes) returns (r: Option<string>)
    ensures r == Base64Encode(d)
  {
    hide EncodeGroup;
    if |d| > MAX_OUTPUT / 4 * 3 {
      return None;
    }
    var result: string := [];
    var i := 0;
    assert d[0..] == d;
    while i < |d|
      invariant 0 <= i && (i <= |d| ==> result + Encode(d[i..]) == Encode(d)) && (i > |d| ==> result == Encode(d))
    {
      var remaining := |d| - i;
      var group := d[i..i + if remaining > 3 then 3 else remaining];
      var symbols := EncodeOne(group);
      EncodeStep(d[i..]);
      assert remaining > 3 ==> d[i..][3..] == d[i + 3..] && d[i..][..3] == group;
      assert remaining <= 3 ==> d[i..] == group;
      assert remaining == 3 ==> d[i + 3..] == [] && Encode(d[i + 3..]) == [];
      result := result + symbols;
      i := i + 3;
    }
    return Some(result);
  }

  lemma EncodeStep(d: Bytes)
    requires d != []
    ensures Encode(d) == if |d| <= 3 then EncodeGroup(d) else EncodeGroup(d[..3]) + Encode(d[3..])
  {
  }

  method EncodeOne(d: Bytes) returns (t: string)
    requires 1 <= |d| <= 3
    ensures t == EncodeGroup(d)
  {
    var first: int, second: int, third: int := d[0], if |d| > 1 then d[1] else 0, if |d| > 2 then d[2] else 0;
    var value := 65536 * first + 256 * second + third;
    t := [Symbol(value / 262144 % 64)];
    t := t + [Symbol(value / 4096 % 64)];
    t := t + [if |d| > 1 then Symbol(value / 64 % 64) else '='];
    t := t + [if |d| > 2 then Symbol(value % 64) else '='];
  }

  method DecodeBase64(t: string) returns (r: Option<Bytes>)
    ensures r == Base64Decode(t)
  {
    hide DecodeGroup;
    if |t| % 4 != 0 {
      return None;
    }
    var padding := 0;
    if |t| > 0 && t[|t| - 1] == '=' {
      padding := padding + 1;
    }
    if |t| > 1 && t[|t| - 2] == '=' {
      padding := padding + 1;
    }
    if |t| / 4 * 3 < padding || |t| / 4 * 3 - padding > MAX_OUTPUT {
      return None;
    }
    r := DecodeAll(t);
  }

  method DecodeAll(t: string) returns (r: Option<Bytes>)
    requires |t| % 4 == 0
    ensures r == DecodeGroups(t)
  {
    hide DecodeGroups, Prefixed, DecodeGroup;
    var result: Bytes := [];
    var i: nat := 0;
    assert t[0..] == t;
    PrefixedStart(DecodeGroups(t));
    while i < |t|
      invariant 0 <= i <= |t| && i % 4 == 0
      invariant Prefixed(DecodeGroups(t), result, DecodeGroups(t[i..]))
    {
      DecodeStep(t, i);
      var group := DecodeOne(t[i..i + 4], i + 4 == |t|);
      if group.None? {
        PrefixedNone(DecodeGroups(t), result, DecodeGroups(t[i..]));
        return None;
      }
      PrefixedStep(DecodeGroups(t), result, group.value, DecodeGroups(t[i..]), DecodeGroups(t[i + 4..]));
      result := result + group.value;
      i := i + 4;
    }
    assert t[i..] == [];
    NoGroups();
    PrefixedAll(DecodeGroups(t), result);
    return Some(result);
  }

  lemma PrefixedNone(whole: Option<Bytes>, done: Bytes, rest: Option<Bytes>)
    requires Prefixed(whole, done, rest) && rest.None?
    ensures whole.None?
  {
  }

  lemma PrefixedAll(whole: Option<Bytes>, done: Bytes)
    requires Prefixed(whole, done, Some([]))
    ensures whole == Some(done)
  {
    assert done + [] == done;
  }

  lemma NoGroups()
    ensures DecodeGroups([]) == Some([])
  {
  }

  lemma DecodeStep(t: string, i: nat)
    requires |t| % 4 == 0 && i < |t| && i % 4 == 0
    ensures |t[i..]| % 4 == 0 && i + 4 <= |t| && |t[i + 4..]| % 4 == 0
    ensures var group := DecodeGroup(t[i..i + 4], i + 4 == |t|);
      if group.None? then DecodeGroups(t[i..]).None?
      else Prefixed(DecodeGroups(t[i..]), group.value, DecodeGroups(t[i + 4..]))
  {
    hide DecodeGroup;
    assert t[i..][..4] == t[i..i + 4] && t[i..][4..] == t[i + 4..];
  }

  ghost predicate Prefixed(whole: Option<Bytes>, done: Bytes, rest: Option<Bytes>) {
    whole == if rest.None? then None else Some(done + rest.value)
  }

  lemma PrefixedStart(whole: Option<Bytes>)
    ensures Prefixed(whole, [], whole)
  {
    if whole.Some? {
      assert [] + whole.value == whole.value;
    }
  }

  lemma PrefixedStep(whole: Option<Bytes>, done: Bytes, group: Bytes, rest: Option<Bytes>, after: Option<Bytes>)
    requires Prefixed(whole, done, rest) && Prefixed(rest, group, after)
    ensures Prefixed(whole, done + group, after)
  {
    if after.Some? {
      assert done + (group + after.value) == done + group + after.value;
    }
  }

  method DecodeOne(t: string, last: bool) returns (r: Option<Bytes>)
    requires |t| == 4
    ensures r == DecodeGroup(t, last)
  {
    var a := SymbolValue(t[0]);
    var b := SymbolValue(t[1]);
    var c := if t[2] == '=' then 0 else SymbolValue(t[2]);
    var d := if t[3] == '=' then 0 else SymbolValue(t[3]);
    if a < 0 || b < 0 || c < 0 || d < 0 || (!last && (t[2] == '=' || t[3] == '=')) {
      return None;
    }
    if last && ((t[2] == '=' && t[3] != '=') || (t[2] == '=' && b % 16 != 0) ||
      (t[3] == '=' && t[2] != '=' && c % 4 != 0)) {
      return None;
    }
    var packed := 262144 * a + 4096 * b + 64 * c + d;
    var result: Bytes := [packed / 65536 % 256];
    if t[2] != '=' {
      result := result + [packed / 256 % 256];
    }
    if t[3] != '=' {
      result := result + [packed % 256];
    }
    assert result == [packed / 65536 % 256] + (if t[2] != '=' then [packed / 256 % 256] else []) +
      if t[3] != '=' then [packed % 256] else [];
    return Some(result);
  }

  method HexEncode(d: Bytes) returns (r: Option<string>)
    ensures r == if |d| > MAX_OUTPUT / 2 then None else Some(Hex(d))
  {
    if |d| > MAX_OUTPUT / 2 {
      return None;
    }
    var result: string := [];
    for i := 0 to |d|
      invariant result + Hex(d[i..]) == Hex(d)
    {
      assert d[i..][1..] == d[i + 1..];
      result := result + [HexDigit(d[i] / 16)] + [HexDigit(d[i] % 16)];
    }
    assert d[|d|..] == [] && result + [] == result;
    return Some(result);
  }

  method HexDecode(t: string) returns (r: Option<Bytes>)
    ensures r == if |t| % 2 != 0 || |t| / 2 > MAX_OUTPUT then None else Unhex(t)
  {
    if |t| % 2 != 0 || |t| / 2 > MAX_OUTPUT {
      return None;
    }
    var result: Bytes := [];
    assert t[0..] == t;
    PrefixedStart(Unhex(t));
    for i := 0 to |t| / 2
      invariant Prefixed(Unhex(t), result, Unhex(t[2 * i..]))
    {
      var hi := Nibble(t[i * 2]);
      var lo := Nibble(t[i * 2 + 1]);
      assert t[2 * i..][2..] == t[2 * (i + 1)..];
      if hi < 0 || lo < 0 {
        return None;
      }
      PrefixedStep(Unhex(t), result, [16 * hi + lo], Unhex(t[2 * i..]), Unhex(t[2 * (i + 1)..]));
      result := result + [16 * hi + lo];
    }
    assert t[2 * (|t| / 2)..] == [] && result + [] == result;
    return Some(result);
  }
}
