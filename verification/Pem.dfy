/** PEM: Base64 text in lines of 64 between a header and a footer that carry the label. */
module Pem {
  import opened Wrappers
  import opened Base64

  const MAX_INPUT: nat := 64 * 1024 * 1024

  predicate LabelChar(c: char) {
    'a' <= c <= 'z' || 'A' <= c <= 'Z' || '0' <= c <= '9' || c == ' ' || c == '-'
  }

  predicate ValidLabel(name: string) {
    1 <= |name| <= 64 && forall i :: 0 <= i < |name| ==> LabelChar(name[i])
  }

  function Header(name: string): (r: string) {
    "-----BEGIN " + name + "-----"
  }

  function Footer(name: string): (r: string) {
    "-----END " + name + "-----"
  }

  function Lines(t: string): (r: string)
    decreases |t|
  {
    if t == [] then [] else if |t| <= 64 then t + "\n" else t[..64] + "\n" + Lines(t[64..])
  }

  function Document(name: string, body: string): (r: string) {
    Header(name) + "\n" + body + Footer(name) + "\n"
  }

  function PemEncode(name: string, der: Bytes): (r: Option<string>) {
    if !ValidLabel(name) || |der| > MAX_OUTPUT || Base64Encode(der).None? then None
    else
      var output := Document(name, Lines(Base64Encode(der).value));
      if |output| > MAX_OUTPUT then None else Some(output)
  }

  predicate StandsAt(s: string, pattern: string, i: nat) {
    i + |pattern| <= |s| && s[i..i + |pattern|] == pattern
  }

  /** The first place from position i on where the pattern stands. */
  function Find(s: string, pattern: string, i: nat): (r: Option<nat>)
    decreases |s| - i
  {
    if i + |pattern| > |s| then None
    else if StandsAt(s, pattern, i) then Some(i)
    else if i == |s| then None
    else Find(s, pattern, i + 1)
  }

  predicate Blank(c: char) {
    c == '\r' || c == '\n' || c == ' ' || c == '\t'
  }

  function Strip(s: string): (r: string) {
    if s == [] then [] else Strip(s[..|s| - 1]) + if Blank(s[|s| - 1]) then [] else [s[|s| - 1]]
  }

  /** The position after an optional carriage return. */
  function SkipReturn(s: string, i: nat): (r: nat) {
    if i < |s| && s[i] == '\r' then i + 1 else i
  }

  /** What stands between header and footer, when nothing but a line break follows either. */
  function Unwrap(pem: string, header: string, footer: string): (r: Option<string>) {
    if !(header <= pem) then None
    else
      var start := SkipReturn(pem, |header|);
      if start >= |pem| || pem[start] != '\n' then None
      else
        match Find(pem, footer, start + 1)
        case None => None
        case Some(end) =>
          var after := SkipReturn(pem, end + |footer|);
          if end < start + 1 || after >= |pem| || pem[after] != '\n' || after + 1 != |pem| then None
          else Some(pem[start + 1..end])
  }

  function PemDecode(pem: string, name: string): (r: Option<Bytes>) {
    if name == [] || |name| > 64 || |pem| > MAX_INPUT then None
    else
      match Unwrap(pem, Header(name), Footer(name))
      case None => None
      case Some(body) => Base64Decode(Strip(body))
  }

  lemma {:induction false} FindIsFirst(s: string, pattern: string, i: nat)
    ensures match Find(s, pattern, i)
      case None => forall k :: k >= i ==> !StandsAt(s, pattern, k)
      case Some(at) => i <= at && StandsAt(s, pattern, at) && forall k :: i <= k < at ==> !StandsAt(s, pattern, k)
    decreases |s| - i
  {
    hide StandsAt;
    if i + |pattern| <= |s| && !StandsAt(s, pattern, i) && i < |s| {
      FindIsFirst(s, pattern, i + 1);
    } else {
      TooShort(s, pattern, i);
    }
  }

  lemma TooShort(s: string, pattern: string, i: nat)
    ensures i + |pattern| > |s| ==> forall k :: k >= i ==> !StandsAt(s, pattern, k)
    ensures i >= |s| && !StandsAt(s, pattern, i) ==> forall k :: k >= i ==> !StandsAt(s, pattern, k)
  {
  }

  // ----- what is accepted -----

  function LineBreak(carriageReturn: bool): (r: string) {
    if carriageReturn then "\r\n" else "\n"
  }

  /** The text is a header line, a body in which no footer begins, and a footer line; each of the
      two lines may end in a carriage return before its line feed. */
  predicate Encloses(pem: string, header: string, first: bool, body: string, footer: string, second: bool) {
    var start := header + LineBreak(first);
    && pem == start + body + footer + LineBreak(second)
    && forall k :: |start| <= k < |start| + |body| ==> !StandsAt(pem, footer, k)
  }

  lemma Split(pem: string, i: nat, j: nat, k: nat, l: nat)
    requires i <= j <= k <= l <= |pem|
    ensures pem == pem[..i] + pem[i..j] + pem[j..k] + pem[k..l] + pem[l..]
  {
  }

  lemma Join(pem: string, a: string, b: string, c: string, d: string, e: string)
    requires pem == a + b + c + d + e
    ensures |pem| == |a| + |b| + |c| + |d| + |e| && pem[..|a|] == a
    ensures pem[|a|..|a| + |b|] == b && pem[|a| + |b|..|a| + |b| + |c|] == c
    ensures pem[|a| + |b| + |c|..|a| + |b| + |c| + |d|] == d && pem[|a| + |b| + |c| + |d|..] == e
  {
  }

  lemma BreakIs(pem: string, i: nat, end: nat, carriageReturn: bool)
    requires i <= end <= |pem|
    ensures pem[i..end] == LineBreak(carriageReturn) <==>
      end == SkipReturn(pem, i) + 1 && pem[end - 1] == '\n' && carriageReturn == (end == i + 2)
  {
    if end == i + 2 {
      assert pem[i..end] == [pem[i], pem[i + 1]];
    } else if end == i + 1 {
      assert pem[i..end] == [pem[i]];
    }
  }

  lemma EnclosesAt(pem: string, header: string, start: nat, end: nat, footer: string, first: bool, second: bool)
    requires header <= pem && |header| <= start <= end && StandsAt(pem, footer, end)
    requires pem[|header|..start] == LineBreak(first) && pem[end + |footer|..] == LineBreak(second)
    requires forall k :: start <= k < end ==> !StandsAt(pem, footer, k)
    ensures Encloses(pem, header, first, pem[start..end], footer, second)
  {
    assert pem[end..end + |footer|] == footer;
    hide StandsAt, LineBreak;
    Split(pem, |header|, start, end, end + |footer|);
  }

  lemma UnwrappedEncloses(pem: string, header: string, footer: string) returns (first: bool, second: bool)
    requires Unwrap(pem, header, footer).Some?
    ensures Encloses(pem, header, first, Unwrap(pem, header, footer).value, footer, second)
  {
    hide Find, SkipReturn, LineBreak, StandsAt, Encloses;
    var start := SkipReturn(pem, |header|) + 1;
    FindIsFirst(pem, footer, start);
    var end := Find(pem, footer, start).value;
    FitsAt(pem, footer, end);
    first, second := start == |header| + 2, |pem| == end + |footer| + 2;
    ReturnIsOne(pem, |header|);
    ReturnIsOne(pem, end + |footer|);
    BreakIs(pem, |header|, start, first);
    BreakIs(pem, end + |footer|, |pem|, second);
    assert pem[end + |footer|..|pem|] == pem[end + |footer|..];
    EnclosesAt(pem, header, start, end, footer, first, second);
  }

  lemma FitsAt(s: string, pattern: string, i: nat)
    requires StandsAt(s, pattern, i)
    ensures i + |pattern| <= |s|
  {
  }

  lemma ReturnIsOne(s: string, i: nat)
    ensures i <= SkipReturn(s, i) <= i + 1
  {
  }

  lemma FindIs(s: string, pattern: string, i: nat, at: nat)
    requires i <= at && at + |pattern| <= |s| && s[at..at + |pattern|] == pattern
    requires forall k :: i <= k < at ==> !StandsAt(s, pattern, k)
    ensures Find(s, pattern, i) == Some(at)
  {
    assert StandsAt(s, pattern, at);
    hide Find, StandsAt;
    FindIsFirst(s, pattern, i);
  }

  lemma UnwrapsAt(pem: string, header: string, start: nat, end: nat, footer: string)
    requires header <= pem && start == SkipReturn(pem, |header|) + 1 <= end && end + |footer| < |pem|
    requires |pem| == SkipReturn(pem, end + |footer|) + 1 && pem[start - 1] == '\n' && pem[|pem| - 1] == '\n'
    requires Find(pem, footer, start) == Some(end)
    ensures Unwrap(pem, header, footer) == Some(pem[start..end])
  {
    hide Find, SkipReturn;
  }

  lemma EnclosedUnwraps(pem: string, header: string, first: bool, body: string, footer: string, second: bool)
    requires Encloses(pem, header, first, body, footer, second)
    ensures Unwrap(pem, header, footer) == Some(body)
  {
    hide Find, StandsAt, SkipReturn, LineBreak, Unwrap;
    var start := |header| + |LineBreak(first)|;
    var end := start + |body|;
    Join(pem, header, LineBreak(first), body, footer, LineBreak(second));
    assert pem[end + |footer|..|pem|] == pem[end + |footer|..];
    BreakIs(pem, |header|, start, first);
    BreakIs(pem, end + |footer|, |pem|, second);
    ReturnIsOne(pem, end + |footer|);
    FindIs(pem, footer, start, end);
    UnwrapsAt(pem, header, start, end, footer);
  }

  /** A text decodes under a label exactly when it encloses, between the header and the first footer
      of that label, the Base64 encoding of the result with white space anywhere in it. */
  lemma PemDecodesIff(pem: string, name: string, der: Bytes)
    ensures PemDecode(pem, name) == Some(der) <==>
      && 1 <= |name| <= 64 && |pem| <= MAX_INPUT && |der| <= MAX_OUTPUT
      && exists body, first, second ::
        Encloses(pem, Header(name), first, body, Footer(name), second) && Strip(body) == Encode(der)
  {
    hide Header, Footer, Unwrap, Strip, Encode, Base64Decode, Encloses;
    var header, footer := Header(name), Footer(name);
    if PemDecode(pem, name) == Some(der) {
      var body := Unwrap(pem, header, footer).value;
      var first, second := UnwrappedEncloses(pem, header, footer);
      Base64DecodesIff(Strip(body), der);
    }
    forall body, first, second |
      Encloses(pem, header, first, body, footer, second) && Strip(body) == Encode(der) && |der| <= MAX_OUTPUT
      ensures Unwrap(pem, header, footer) == Some(body) && Base64Decode(Strip(body)) == Some(der)
    {
      EnclosedUnwraps(pem, header, first, body, footer, second);
      Base64DecodesIff(Strip(body), der);
    }
  }

  // ----- the round trip -----

  /** Base64 text: symbols and padding. */
  predicate IsText(t: string) {
    forall i :: 0 <= i < |t| ==> t[i] == '=' || SymbolValue(t[i]) >= 0
  }

  lemma {:induction false} EncodeIsText(d: Bytes)
    ensures IsText(Encode(d))
    decreases |d|
  {
    if d != [] {
      hide Symbol, SymbolValue;
      GroupIsText(if |d| <= 3 then d else d[..3]);
      if |d| > 3 {
        EncodeIsText(d[3..]);
      }
    }
  }

  lemma GroupIsText(d: Bytes)
    requires 1 <= |d| <= 3
    ensures IsText(EncodeGroup(d))
  {
    hide Symbol, SymbolValue;
    var t := EncodeGroup(d);
    var v := Packed(d[0], if |d| > 1 then d[1] else 0, if |d| > 2 then d[2] else 0);
    SymbolRoundTrip(v / 262144 % 64);
    SymbolRoundTrip(v / 4096 % 64);
    SymbolRoundTrip(v / 64 % 64);
    SymbolRoundTrip(v % 64);
  }

  predicate NoDash(s: string) {
    forall i :: 0 <= i < |s| ==> s[i] != '-'
  }

  lemma {:induction false} StripAppend(s: string, u: string)
    ensures Strip(s + u) == Strip(s) + Strip(u)
    decreases |u|
  {
    if u == [] {
      assert s + u == s;
    } else {
      var init := u[..|u| - 1];
      assert (s + u)[..|s + u| - 1] == s + init;
      StripAppend(s, init);
    }
  }

  lemma {:induction false} StripText(t: string)
    requires IsText(t)
    ensures Strip(t) == t
    decreases |t|
  {
    if t != [] {
      StripText(t[..|t| - 1]);
      assert !Blank(t[|t| - 1]);
    }
  }

  lemma StripNewline()
    ensures Strip("\n") == []
  {
    assert "\n"[..0] == [];
  }

  lemma {:induction false} LinesStrip(t: string)
    requires IsText(t)
    ensures Strip(Lines(t)) == t && NoDash(Lines(t))
    decreases |t|
  {
    hide SymbolValue, Strip;
    StripNothing();
    if t == [] {
    } else if |t| <= 64 {
      LineStrips(t);
    } else {
      var line, rest := t[..64], t[64..];
      LineStrips(line);
      LinesStrip(rest);
      StripAppend(line + "\n", Lines(rest));
      assert line + rest == t;
    }
  }

  lemma StripNothing()
    ensures Strip([]) == []
  {
  }

  lemma LineStrips(line: string)
    requires IsText(line)
    ensures Strip(line + "\n") == line && NoDash(line + "\n")
  {
    hide Strip, SymbolValue, IsText;
    TextHasNoDash(line);
    StripText(line);
    StripNewline();
    StripAppend(line, "\n");
    assert line + [] == line;
  }

  lemma TextHasNoDash(t: string)
    requires IsText(t)
    ensures NoDash(t)
  {
  }

  lemma FooterStarts(name: string)
    ensures |Footer(name)| > 0 && Footer(name)[0] == '-'
  {
  }

  /** Without a dash in the body, no footer begins in it. */
  lemma NoFooterInside(pem: string, header: string, body: string, footer: string)
    requires pem == header + "\n" + body + footer + "\n" && NoDash(body) && footer != [] && footer[0] == '-'
    ensures Encloses(pem, header, false, body, footer, false)
  {
    var start := |header| + 1;
    Join(pem, header, "\n", body, footer, "\n");
    forall k | start <= k < start + |body| ensures !StandsAt(pem, footer, k) {
      assert pem[k] == pem[start..start + |body|][k - start];
      assert k + |footer| <= |pem| ==> pem[k..k + |footer|][0] == pem[k];
    }
  }

  /** Whatever is encoded decodes under the same label to the original bytes. */
  lemma PemRoundTrip(name: string, der: Bytes)
    requires PemEncode(name, der).Some?
    ensures PemDecode(PemEncode(name, der).value, name) == Some(der)
  {
    var text := Base64Encode(der).value;
    EncodeIsText(der);
    LinesStrip(text);
    Base64RoundTrip(der);
    FooterStarts(name);
    hide Lines, Strip, Base64Decode, Encode, NoDash, IsText, Header, Footer, Unwrap, Encloses;
    var header, body, footer, pem := Header(name), Lines(text), Footer(name), Document(name, Lines(text));
    NoFooterInside(pem, header, body, footer);
    EnclosedUnwraps(pem, header, false, body, footer, false);
  }

  lemma Shift(k: nat, d: nat)
    requires d > 0 && k >= d
    ensures (k - d) % d == k % d && (k - d) / d == k / d - 1
  {
    var q, r := k / d, k % d;
    assert k == d * q + r;
    assert k - d == d * (q - 1) + r by {
      assert d * q == d * (q - 1) + d;
    }
    Base64.Divides(k - d, d, q - 1, r);
  }

  lemma {:induction false} LinesLength(t: string)
    ensures |Lines(t)| == |t| + (|t| + 63) / 64
    decreases |t|
  {
    if |t| > 64 {
      LinesLength(t[64..]);
      Shift(|t| + 63, 64);
    }
  }

  /** Every line has 64 characters, and only the last one may be shorter. */
  lemma {:induction false} LinesAreFull(t: string, k: nat)
    requires k < |Lines(t)|
    ensures k % 65 == 64 || k == |Lines(t)| - 1 ==> Lines(t)[k] == '\n'
    ensures k % 65 != 64 && k != |Lines(t)| - 1 ==> k - k / 65 < |t| && Lines(t)[k] == t[k - k / 65]
    decreases |t|
  {
    if |t| > 64 && k >= 65 {
      var rest := t[64..];
      Shift(k, 65);
      assert Lines(t) == t[..64] + "\n" + Lines(rest);
      assert Lines(t)[k] == Lines(rest)[k - 65];
      hide Lines;
      LinesAreFull(rest, k - 65);
    }
  }

  // ----- the loops -----

  method EncodePem(name: string, der: Bytes) returns (r: Option<string>)
    ensures r == PemEncode(name, der)
  {
    hide Encode;
    if |name| == 0 || |name| > 64 || |der| > MAX_OUTPUT {
      return None;
    }
    for i := 0 to |name|
      invariant forall k :: 0 <= k < i ==> LabelChar(name[k])
    {
      if !LabelChar(name[i]) {
        return None;
      }
    }
    var encoded := EncodeBase64(der);
    if encoded.None? {
      return None;
    }
    var output := AppendLines(Header(name) + "\n", encoded.value);
    output := output + (Footer(name) + "\n");
    assert output == Document(name, Lines(encoded.value));
    if |output| > MAX_OUTPUT {
      return None;
    }
    return Some(output);
  }

  method AppendLines(start: string, text: string) returns (output: string)
    ensures output == start + Lines(text)
  {
    output := start;
    var i: nat := 0;
    assert text[0..] == text;
    while i < |text|
      invariant if i <= |text| then output + Lines(text[i..]) == start + Lines(text) else output == start + Lines(text)
      decreases |text| - i
    {
      var length := if |text| - i < 64 then |text| - i else 64;
      assert |text| - i > 64 ==> text[i..][64..] == text[i + 64..] && text[i..][..64] == text[i..i + length];
      assert |text| - i <= 64 ==> text[i..] == text[i..i + length];
      assert |text| - i == 64 ==> text[i + 64..] == [] && Lines(text[i + 64..]) == [];
      output := output + text[i..i + length];
      output := output + "\n";
      i := i + 64;
    }
  }

  method FindPattern(s: string, pattern: string, from: nat) returns (r: Option<nat>)
    ensures r == Find(s, pattern, from)
  {
    hide StandsAt;
    var i := from;
    while i + |pattern| <= |s|
      invariant i >= from && Find(s, pattern, i) == Find(s, pattern, from)
      decreases |s| - i
    {
      if StandsAt(s, pattern, i) {
        return Some(i);
      }
      if i == |s| {
        return None;
      }
      i := i + 1;
    }
    return None;
  }

  method StripBlanks(s: string) returns (body: string)
    ensures body == Strip(s)
  {
    body := [];
    for i := 0 to |s|
      invariant body == Strip(s[..i])
    {
      assert s[..i + 1][..i] == s[..i];
      if !Blank(s[i]) {
        body := body + [s[i]];
      }
    }
    assert s[..|s|] == s;
  }

  method DecodePem(pem: string, name: string) returns (r: Option<Bytes>)
    ensures r == PemDecode(pem, name)
  {
    hide Header, Footer, Find, Strip, Base64Decode;
    if name == [] || |name| > 64 || |pem| > MAX_INPUT {
      return None;
    }
    var begin, end := Header(name), Footer(name);
    if !(begin <= pem) {
      return None;
    }
    var bodyStart := |begin|;
    if bodyStart < |pem| && pem[bodyStart] == '\r' {
      bodyStart := bodyStart + 1;
    }
    if bodyStart >= |pem| || pem[bodyStart] != '\n' {
      return None;
    }
    bodyStart := bodyStart + 1;
    var found := FindPattern(pem, end, bodyStart);
    if found.None? {
      return None;
    }
    FindIsFirst(pem, end, bodyStart);
    var body := StripBlanks(pem[bodyStart..found.value]);
    var footerEnd := found.value + |end|;
    if footerEnd < |pem| && pem[footerEnd] == '\r' {
      footerEnd := footerEnd + 1;
    }
    if footerEnd >= |pem| || pem[footerEnd] != '\n' || footerEnd + 1 != |pem| {
      return None;
    }
    r := DecodeBase64(body);
  }
}
