/** Every way to write a manifest. A form is a concrete text cut into its tokens: the quotes and escapes of
    its strings, plain and bracketed keys, separators, and the white space and comments in between. */
module ManifestForms {
  import opened Wrappers
  import opened Characters
  import opened StringOrder
  import opened ManifestText

  // ----- forms -----

  datatype Piece = Blank(c: char) | LineComment(text: string, end: char) | BlockComment(text: string)

  type Trivia = seq<Piece>

  type Digits = s: string | AllDigits(s)

  datatype Letter = Plain(c: char) | Escaped(c: char)

  datatype Literal = Literal(quote: char, letters: seq<Letter>)

  datatype KeyForm = PlainKey(word: string) | BracketKey(before: Trivia, literal: Literal, after: Trivia)

  /** A key, the trivia before its equals sign, and the trivia after it. */
  datatype Assignment = Assignment(key: KeyForm, before: Trivia, after: Trivia)

  datatype ValueForm =
    | NilForm
    | BoolForm(b: bool)
    | IntForm(sign: string, digits: Digits)
    | StringForm(literal: Literal)
    | TableForm(entries: seq<EntryForm>, close: Trivia)

  datatype EntryForm = EntryForm(lead: Trivia, left: Option<Assignment>, value: ValueForm, tail: Trivia,
                                 separator: Option<char>)

  /** A comment that the end of the text cuts off. */
  datatype Tail = NoTail | OpenLine(text: string) | OpenBlock(text: string)

  datatype ManifestForm = ManifestForm(lead: Trivia, gap: Trivia, entries: seq<EntryForm>, close: Trivia,
                                       trail: Trivia, tail: Tail)

  // ----- the text of a form, in front of what follows it -----

  function PieceText(p: Piece): (r: string) {
    match p
    case Blank(c) => [c]
    case LineComment(text, end) => "--" + text + [end]
    case BlockComment(text) => "--[[" + text + "]]"
  }

  function TriviaThen(t: Trivia, rest: string): (r: string) {
    if t == [] then rest else PieceText(t[0]) + TriviaThen(t[1..], rest)
  }

  function LettersThen(letters: seq<Letter>, rest: string): (r: string) {
    if letters == [] then rest
    else (if letters[0].Plain? then [letters[0].c] else ['\\', letters[0].c]) + LettersThen(letters[1..], rest)
  }

  function LiteralThen(l: Literal, rest: string): (r: string) {
    [l.quote] + LettersThen(l.letters, [l.quote] + rest)
  }

  function KeyThen(k: KeyForm, rest: string): (r: string) {
    match k
    case PlainKey(word) => word + rest
    case BracketKey(before, literal, after) =>
      ['['] + TriviaThen(before, LiteralThen(literal, TriviaThen(after, [']'] + rest)))
  }

  function AssignmentThen(a: Assignment, rest: string): (r: string) {
    KeyThen(a.key, TriviaThen(a.before, ['='] + TriviaThen(a.after, rest)))
  }

  function ValueThen(v: ValueForm, rest: string): (r: string)
    decreases v
  {
    match v
    case NilForm => "nil" + rest
    case BoolForm(b) => (if b then "true" else "false") + rest
    case IntForm(sign, digits) => sign + digits + rest
    case StringForm(literal) => LiteralThen(literal, rest)
    case TableForm(entries, close) => ['{'] + EntriesThen(entries, TriviaThen(close, ['}'] + rest))
  }

  function SeparatorThen(separator: Option<char>, rest: string): (r: string) {
    if separator.Some? then [separator.value] + rest else rest
  }

  function BareThen(e: EntryForm, rest: string): (r: string)
    decreases e, 0
  {
    ValueThen(e.value, TriviaThen(e.tail, SeparatorThen(e.separator, rest)))
  }

  function EntryThen(e: EntryForm, rest: string): (r: string)
    decreases e, 1
  {
    TriviaThen(e.lead, if e.left.Some? then AssignmentThen(e.left.value, BareThen(e, rest)) else BareThen(e, rest))
  }

  function EntriesThen(entries: seq<EntryForm>, rest: string): (r: string)
    decreases entries
  {
    if entries == [] then rest else EntryThen(entries[0], EntriesThen(entries[1..], rest))
  }

  function TailText(t: Tail): (r: string) {
    match t
    case NoTail => ""
    case OpenLine(text) => "--" + text
    case OpenBlock(text) => "--[[" + text
  }

  function Text(m: ManifestForm): (r: string) {
    TriviaThen(m.lead, "return" + TriviaThen(m.gap,
      ['{'] + EntriesThen(m.entries, TriviaThen(m.close, ['}'] + TriviaThen(m.trail, TailText(m.tail))))))
  }

  // ----- which forms are proper -----

  predicate NoLineEnd(s: string) {
    forall i :: 0 <= i < |s| ==> s[i] != '\r' && s[i] != '\n'
  }

  /** No "]]" begins before position n. */
  predicate NoCloseBefore(s: string, n: nat) {
    forall i :: 0 <= i < n && i + 1 < |s| ==> s[i] != ']' || s[i + 1] != ']'
  }

  predicate ProperPiece(p: Piece) {
    match p
    case Blank(c) => IsSpace(c)
    case LineComment(text, end) => NoLineEnd(text) && (end == '\r' || end == '\n') && !("[[" <= text)
    case BlockComment(text) => NoCloseBefore(text + "]]", |text|)
  }

  predicate ProperTrivia(t: Trivia) {
    forall i :: 0 <= i < |t| ==> ProperPiece(t[i])
  }

  predicate ProperLiteral(l: Literal) {
    && (l.quote == '\'' || l.quote == '"')
    && forall i :: 0 <= i < |l.letters| && l.letters[i].Plain? ==> l.letters[i].c != l.quote && l.letters[i].c != '\\'
  }

  predicate ProperKey(k: KeyForm) {
    match k
    case PlainKey(word) =>
      && word != [] && IsIdentifierStart(word[0])
      && forall i :: 0 <= i < |word| ==> IsIdentifierCharacter(word[i])
    case BracketKey(before, literal, after) => ProperTrivia(before) && ProperLiteral(literal) && ProperTrivia(after)
  }

  predicate ProperAssignment(a: Assignment) {
    ProperKey(a.key) && ProperTrivia(a.before) && ProperTrivia(a.after)
  }

  function Number(sign: string, digits: Digits): (n: int) {
    if sign == "-" then -(DigitsValue(digits) as int) else DigitsValue(digits)
  }

  predicate ProperInt(sign: string, digits: Digits) {
    && (sign == "" || sign == "-" || sign == "+") && digits != []
    && INT64_MIN <= Number(sign, digits) <= INT64_MAX
  }

  predicate ProperValue(v: ValueForm)
    decreases v
  {
    match v
    case IntForm(sign, digits) => ProperInt(sign, digits)
    case StringForm(literal) => ProperLiteral(literal)
    case TableForm(entries, close) => ProperEntries(entries) && ProperTrivia(close) && Closes(entries, close)
    case _ => true
  }

  /** A number takes everything up to white space or punctuation, so that no comment may follow it directly. */
  predicate ProperEntry(e: EntryForm)
    decreases e
  {
    && ProperTrivia(e.lead) && ProperTrivia(e.tail) && ProperValue(e.value)
    && (e.left.Some? ==> ProperAssignment(e.left.value))
    && (e.separator.Some? ==> e.separator.value == ',' || e.separator.value == ';')
    && (e.value.IntForm? && e.tail != [] ==> e.tail[0].Blank?)
  }

  /** Only the last entry may lack its separator. */
  predicate ProperEntries(entries: seq<EntryForm>)
    decreases entries
  {
    entries == [] ||
    (ProperEntry(entries[0]) && (entries[0].separator.Some? || |entries| == 1) && ProperEntries(entries[1..]))
  }

  /** What stands before the closing brace belongs to the last entry when that has no separator. */
  predicate Closes(entries: seq<EntryForm>, close: Trivia) {
    entries != [] && entries[|entries| - 1].separator.None? ==> close == []
  }

  predicate ProperTail(t: Tail) {
    match t
    case NoTail => true
    case OpenLine(text) => NoLineEnd(text) && !("[[" <= text)
    case OpenBlock(text) => NoCloseBefore(text, |text|)
  }

  predicate Proper(m: ManifestForm) {
    && ProperTrivia(m.lead) && ProperTrivia(m.gap) && ProperEntries(m.entries) && ProperTrivia(m.close)
    && Closes(m.entries, m.close) && ProperTrivia(m.trail) && ProperTail(m.tail)
    && forall i :: 0 <= i < |m.entries| ==> m.entries[i].left.Some?
  }

  // ----- what a form means -----

  function LettersValue(letters: seq<Letter>): (r: string) {
    if letters == [] then []
    else [if letters[0].Plain? then letters[0].c else Unescape(letters[0].c)] + LettersValue(letters[1..])
  }

  function KeyValue(k: KeyForm): (r: string) {
    if k.PlainKey? then k.word else LettersValue(k.literal.letters)
  }

  predicate AnyKeyed(entries: seq<EntryForm>) {
    exists i :: 0 <= i < |entries| && entries[i].left.Some?
  }

  predicate AnyPositional(entries: seq<EntryForm>) {
    exists i :: 0 <= i < |entries| && entries[i].left.None?
  }

  /** A table with keyed and positional entries means nothing, nor does anything around it. */
  predicate Means(v: ValueForm)
    decreases v
  {
    v.TableForm? ==> !(AnyKeyed(v.entries) && AnyPositional(v.entries)) && AllMean(v.entries)
  }

  predicate AllMean(entries: seq<EntryForm>)
    decreases entries
  {
    entries == [] || (Means(entries[0].value) && AllMean(entries[1..]))
  }

  function Meaning(v: ValueForm): (r: Value)
    decreases v
  {
    match v
    case NilForm => Null
    case BoolForm(b) => Bool(b)
    case IntForm(sign, digits) => Int(Number(sign, digits))
    case StringForm(literal) => Str(LettersValue(literal.letters))
    case TableForm(entries, _) =>
      if AnyPositional(entries) then Arr(ItemsOf([], entries)) else Obj(FieldsOf([], entries))
  }

  /** The fields with those of the entries put on top, in order. */
  function FieldsOf(fields: seq<Field>, entries: seq<EntryForm>): (r: seq<Field>)
    decreases entries
  {
    if entries == [] then fields
    else
      FieldsOf(
        if entries[0].left.Some? then
          Put(fields, KeyValue(entries[0].left.value.key), Meaning(entries[0].value))
        else fields,
        entries[1..])
  }

  function ItemsOf(items: seq<Value>, entries: seq<EntryForm>): (r: seq<Value>)
    decreases entries
  {
    if entries == [] then items
    else ItemsOf(if entries[0].left.None? then items + [Meaning(entries[0].value)] else items, entries[1..])
  }

  // ----- trivia -----

  /** Text that trivia in front of it is skipped up to. */
  predicate Firm(s: string) {
    s != [] && !IsSpace(s[0]) && !(|s| >= 2 && s[0] == '-' && s[1] == '-')
  }

  lemma FirmStays(s: string)
    requires Firm(s)
    ensures SkipTrivia(s) == s
  {
  }

  lemma {:induction false} LineEnds(text: string, rest: string)
    requires NoLineEnd(text) && (rest == [] || rest[0] == '\r' || rest[0] == '\n')
    ensures FromLineEnd(text + rest) == rest
    decreases |text|
  {
    if text == [] {
      assert text + rest == rest;
    } else {
      assert (text + rest)[1..] == text[1..] + rest;
      LineEnds(text[1..], rest);
    }
  }

  lemma {:induction false} BlockEnds(text: string, rest: string)
    requires NoCloseBefore(text + "]]", |text|)
    ensures AfterBlockComment(text + "]]" + rest) == Some(rest)
    decreases |text|
  {
    var s := text + "]]" + rest;
    assert forall i :: 0 <= i < |text| + 2 ==> s[i] == (text + "]]")[i];
    if text == [] {
      assert s[2..] == rest;
    } else {
      assert s[1..] == text[1..] + "]]" + rest;
      assert (text + "]]")[1..] == text[1..] + "]]";
      BlockEnds(text[1..], rest);
    }
  }

  lemma {:induction false} BlockNeverEnds(text: string)
    requires NoCloseBefore(text, |text|)
    ensures AfterBlockComment(text) == None
    decreases |text|
  {
    if |text| >= 2 {
      BlockNeverEnds(text[1..]);
    }
  }

  lemma PieceSkips(p: Piece, rest: string)
    requires ProperPiece(p)
    ensures SkipTrivia(PieceText(p) + rest) == SkipTrivia(rest)
  {
    match p
    case Blank(c) => assert (PieceText(p) + rest)[1..] == rest;
    case LineComment(text, end) => LineSkips(text, end, rest);
    case BlockComment(text) => BlockSkips(text, rest);
  }

  lemma LineSkips(text: string, end: char, rest: string)
    requires ProperPiece(LineComment(text, end))
    ensures SkipTrivia("--" + text + [end] + rest) == SkipTrivia(rest)
  {
    var s := "--" + text + [end] + rest;
    assert s[2..] == text + ([end] + rest);
    LineEnds(text, [end] + rest);
    LineIsNoBlock(text, end, rest);
    hide FromLineEnd, NoLineEnd;
    assert ([end] + rest)[1..] == rest;
    EndIsSkipped(end, rest);
  }

  lemma EndIsSkipped(end: char, rest: string)
    requires IsSpace(end)
    ensures SkipTrivia([end] + rest) == SkipTrivia(rest)
  {
    assert ([end] + rest)[1..] == rest;
  }

  lemma BlockSkips(text: string, rest: string)
    requires ProperPiece(BlockComment(text))
    ensures SkipTrivia("--[[" + text + "]]" + rest) == SkipTrivia(rest)
  {
    var s := "--[[" + text + "]]" + rest;
    assert s[4..] == text + "]]" + rest;
    BlockEnds(text, rest);
    hide AfterBlockComment, NoCloseBefore;
  }

  lemma LineIsNoBlock(text: string, end: char, rest: string)
    requires NoLineEnd(text) && (end == '\r' || end == '\n') && !("[[" <= text)
    ensures var s := "--" + text + [end] + rest; !(|s| >= 4 && s[2] == '[' && s[3] == '[')
  {
    var s := "--" + text + [end] + rest;
    if |text| >= 2 {
      assert s[2] == text[0] && s[3] == text[1];
    } else if |text| == 1 {
      assert s[3] == end;
    } else {
      assert s[2] == end;
    }
  }

  lemma {:induction false} TriviaSkips(t: Trivia, rest: string)
    requires ProperTrivia(t)
    ensures SkipTrivia(TriviaThen(t, rest)) == SkipTrivia(rest)
    decreases |t|
  {
    if t != [] {
      hide SkipTrivia, ProperPiece, PieceText;
      PieceSkips(t[0], TriviaThen(t[1..], rest));
      TriviaSkips(t[1..], rest);
    }
  }

  lemma TailSkips(t: Tail)
    requires ProperTail(t)
    ensures SkipTrivia(TailText(t)) == []
  {
    var s := TailText(t);
    match t
    case NoTail =>
    case OpenLine(text) =>
      assert s[2..] == text && text + [] == text;
      LineEnds(text, []);
    case OpenBlock(text) =>
      assert s[4..] == text;
      BlockNeverEnds(text);
  }

  // ----- tokens -----

  lemma {:induction false} LettersRead(letters: seq<Letter>, quote: char, rest: string)
    requires quote == '\'' || quote == '"'
    requires forall i :: 0 <= i < |letters| && letters[i].Plain? ==> letters[i].c != quote && letters[i].c != '\\'
    ensures ReadQuoted(LettersThen(letters, [quote] + rest), quote) == Ok(LettersValue(letters), rest)
    decreases |letters|
  {
    var s := LettersThen(letters, [quote] + rest);
    if letters == [] {
      assert s[1..] == rest;
    } else {
      hide Unescape;
      var more := LettersThen(letters[1..], [quote] + rest);
      LettersRead(letters[1..], quote, rest);
      if letters[0].Plain? {
        assert s == [letters[0].c] + more && s[1..] == more;
      } else {
        assert s == ['\\', letters[0].c] + more && s[2..] == more;
      }
    }
  }

  lemma LiteralReads(l: Literal, rest: string)
    requires ProperLiteral(l)
    ensures ReadString(LiteralThen(l, rest)) == Ok(LettersValue(l.letters), rest)
    ensures Firm(LiteralThen(l, rest)) && LiteralThen(l, rest)[0] == l.quote
  {
    LettersRead(l.letters, l.quote, rest);
    hide ReadQuoted, LettersThen;
    assert LiteralThen(l, rest)[1..] == LettersThen(l.letters, [l.quote] + rest);
  }

  /** Text that does not go on with an identifier. */
  predicate NoIdentifier(s: string) {
    s == [] || !IsIdentifierCharacter(s[0])
  }

  lemma {:induction false} WordEnds(word: string, rest: string)
    requires NoIdentifier(rest) && forall i :: 0 <= i < |word| ==> IsIdentifierCharacter(word[i])
    ensures IdentifierLength(word + rest) == |word|
    decreases |word|
  {
    if word == [] {
      assert word + rest == rest;
    } else {
      assert (word + rest)[1..] == word[1..] + rest;
      WordEnds(word[1..], rest);
    }
  }

  /** Every identifier is read as a plain key, up to the first character that cannot go on with it. */
  lemma PlainKeyReads(word: string, rest: string)
    requires ProperKey(PlainKey(word)) && NoIdentifier(rest)
    ensures ReadKey(word + rest) == Ok(word, rest)
  {
    WordEnds(word, rest);
    assert (word + rest)[0] == word[0];
    hide IdentifierLength;
    assert (word + rest)[..|word|] == word && (word + rest)[|word|..] == rest;
  }

  lemma KeyReads(k: KeyForm, rest: string)
    requires ProperKey(k) && (k.PlainKey? ==> NoIdentifier(rest))
    ensures ReadKey(KeyThen(k, rest)) == Ok(KeyValue(k), rest)
    ensures Firm(KeyThen(k, rest)) && KeyThen(k, rest)[0] != '}'
  {
    match k
    case PlainKey(word) =>
      PlainKeyReads(word, rest);
      assert (word + rest)[0] == word[0];
    case BracketKey(before, literal, after) =>
      var close := [']'] + rest;
      var inner := LiteralThen(literal, TriviaThen(after, close));
      var s := KeyThen(k, rest);
      hide SkipTrivia, ReadString, TriviaThen, LiteralThen, ProperTrivia, ProperLiteral;
      assert s[1..] == TriviaThen(before, inner);
      LiteralReads(literal, TriviaThen(after, close));
      TriviaSkips(before, inner);
      FirmStays(inner);
      TriviaSkips(after, close);
      FirmStays(close);
      assert close[1..] == rest;
  }

  lemma {:induction false} TriviaStarts(t: Trivia, rest: string)
    requires ProperTrivia(t) && t != []
    ensures TriviaThen(t, rest) != [] && (IsSpace(TriviaThen(t, rest)[0]) <==> t[0].Blank?)
    ensures !IsSpace(TriviaThen(t, rest)[0]) ==> TriviaThen(t, rest)[0] == '-'
  {
    assert ProperPiece(t[0]);
    hide TriviaThen;
    assert TriviaThen(t, rest) == PieceText(t[0]) + TriviaThen(t[1..], rest) by {
      TriviaUnfolds(t, rest);
    }
  }

  lemma TriviaUnfolds(t: Trivia, rest: string)
    requires t != []
    ensures TriviaThen(t, rest) == PieceText(t[0]) + TriviaThen(t[1..], rest)
  {
  }

  lemma TriviaNoIdentifier(t: Trivia, rest: string)
    requires ProperTrivia(t) && NoIdentifier(rest)
    ensures NoIdentifier(TriviaThen(t, rest))
  {
    if t != [] {
      hide TriviaThen;
      TriviaStarts(t, rest);
    }
  }

  /** A key, its equals sign and the trivia after it: what is left begins at the value. */
  lemma AssignmentReads(a: Assignment, rest: string)
    requires ProperAssignment(a)
    ensures ReadAssignment(AssignmentThen(a, rest)) == Ok(KeyValue(a.key), TriviaThen(a.after, rest))
    ensures ReadKey(AssignmentThen(a, rest)) == Ok(KeyValue(a.key),
      TriviaThen(a.before, ['='] + TriviaThen(a.after, rest)))
    ensures SkipTrivia(TriviaThen(a.before, ['='] + TriviaThen(a.after, rest))) == ['='] + TriviaThen(a.after, rest)
    ensures Firm(AssignmentThen(a, rest)) && AssignmentThen(a, rest)[0] != '}'
  {
    hide SkipTrivia, ReadKey, TriviaThen, KeyThen, ProperKey, ProperTrivia, KeyValue;
    var equals := ['='] + TriviaThen(a.after, rest);
    TriviaNoIdentifier(a.before, equals);
    KeyReads(a.key, TriviaThen(a.before, equals));
    TriviaSkips(a.before, equals);
    FirmStays(equals);
    assert equals[1..] == TriviaThen(a.after, rest);
  }

  // ----- values -----

  /** Text that a number before it ends at. */
  predicate EndsNumber(s: string) {
    s == [] || IsSpace(s[0]) || s[0] == ',' || s[0] == ';' || s[0] == '}'
  }

  /** What may follow a value: no identifier character, and for a number white space or punctuation. */
  predicate MayFollow(v: ValueForm, rest: string) {
    NoIdentifier(rest) && (v.IntForm? ==> EndsNumber(rest))
  }

  lemma {:induction false} TokenEnds(token: string, rest: string)
    requires EndsNumber(rest)
    requires forall i :: 0 <= i < |token| ==> IsDigit(token[i]) || token[i] == '-' || token[i] == '+'
    ensures TokenLength(token + rest) == |token|
    decreases |token|
  {
    if token == [] {
      assert token + rest == rest;
    } else {
      assert (token + rest)[1..] == token[1..] + rest;
      TokenEnds(token[1..], rest);
    }
  }

  lemma NumberReads(sign: string, digits: Digits)
    requires ProperInt(sign, digits)
    ensures ParseInteger(sign + digits) == Some(Number(sign, digits))
    ensures var t := sign + digits; t != [] && (IsDigit(t[0]) || t[0] == '-' || t[0] == '+')
    ensures forall i :: 0 <= i < |sign + digits| ==>
      var c := (sign + digits)[i]; IsDigit(c) || c == '-' || c == '+'
  {
    hide DigitsValue;
    var t := sign + digits;
    if sign == "" {
      assert t == digits;
    } else {
      assert t[1..] == digits && t[0] == sign[0];
    }
  }

  lemma IntReads(sign: string, digits: Digits, rest: string)
    requires ProperInt(sign, digits) && EndsNumber(rest)
    ensures ReadScalar(sign + digits + rest) == Ok(Int(Number(sign, digits)), rest)
    ensures var s := sign + digits + rest;
      && Firm(s) && s[0] != '\'' && s[0] != '"' && s[0] != '{' && s[0] != '[' && s[0] != '}' && !IsIdentifierStart(s[0])
  {
    var token, s := sign + digits, sign + digits + rest;
    NumberReads(sign, digits);
    TokenEnds(token, rest);
    IntIsFirm(sign, digits, rest);
    hide ParseInteger, TokenLength, Number, ProperInt;
    assert s[0] == token[0];
    hide AfterKeyword;
    NoKeyword(s, "true");
    NoKeyword(s, "false");
    NoKeyword(s, "nil");
    assert s[..|token|] == token && s[|token|..] == rest;
  }

  lemma NoKeyword(s: string, keyword: string)
    requires s != [] && keyword != [] && s[0] != keyword[0]
    ensures AfterKeyword(s, keyword).None?
  {
  }

  lemma IntIsFirm(sign: string, digits: Digits, rest: string)
    requires ProperInt(sign, digits)
    ensures Firm(sign + digits + rest)
  {
    var s := sign + digits + rest;
    if sign == "" {
      assert s[0] == digits[0];
    } else {
      assert s[0] == sign[0] && s[1] == digits[0];
    }
  }

  lemma WordReads(word: string, rest: string)
    requires NoIdentifier(rest) && (word == "true" || word == "false" || word == "nil")
    ensures AfterKeyword(word + rest, word) == Some(rest)
    ensures forall other :: (other == "true" || other == "false" || other == "nil") && other != word ==>
      AfterKeyword(word + rest, other).None?
    ensures ReadKey(word + rest) == Ok(word, rest) && Firm(word + rest) && (word + rest)[0] == word[0]
  {
    assert (word + rest)[|word|..] == rest && (word + rest)[0] == word[0];
    assert word <= word + rest;
    PlainKeyReads(word, rest);
    hide ReadKey;
    assert "true"[0] != "false"[0] && "true"[0] != "nil"[0] && "false"[0] != "nil"[0];
  }

  /** The text of a value before what may follow it starts neither an assignment nor trivia. */
  lemma ValueStarts(v: ValueForm, rest: string)
    requires ProperValue(v) && MayFollow(v, rest)
    ensures Firm(ValueThen(v, rest)) && ValueThen(v, rest)[0] != '}'
    ensures !Starts(SkipTrivia(rest), '=') ==> ReadAssignment(ValueThen(v, rest)).Fail?
  {
    hide SkipTrivia;
    match v
    case NilForm => WordReads("nil", rest);
    case BoolForm(b) => WordReads(if b then "true" else "false", rest);
    case IntForm(sign, digits) => IntReads(sign, digits, rest);
    case StringForm(literal) => LiteralReads(literal, rest);
    case TableForm(entries, close) =>
  }

  // ----- reading a form -----

  /** What reading the remaining entries of a table and its closing brace gives. */
  function Outcome(entries: seq<EntryForm>, rest: string, fields: seq<Field>, items: seq<Value>, keyed: bool,
                   positional: bool): (r: Read<Value>)
  {
    var anyKeyed, anyPositional := keyed || AnyKeyed(entries), positional || AnyPositional(entries);
    if !AllMean(entries) || (anyKeyed && anyPositional) then Fail
    else Ok(if anyPositional then Arr(ItemsOf(items, entries)) else Obj(FieldsOf(fields, entries)), rest)
  }

  lemma OutcomeStep(entries: seq<EntryForm>, rest: string, fields: seq<Field>, items: seq<Value>, keyed: bool,
                    positional: bool)
    requires entries != []
    ensures var e, more := entries[0], entries[1..];
      Outcome(entries, rest, fields, items, keyed, positional) ==
        if !Means(e.value) then Fail
        else if e.left.Some? then
          Outcome(more, rest, Put(fields, KeyValue(e.left.value.key), Meaning(e.value)), items, true, positional)
        else Outcome(more, rest, fields, items + [Meaning(e.value)], keyed, true)
  {
    var e, more := entries[0], entries[1..];
    assert entries == [e] + more;
    hide Put, KeyValue, Meaning, Means;
    assert AnyKeyed(entries) <==> e.left.Some? || AnyKeyed(more) by {
      AnyOf(e, more);
    }
    assert AnyPositional(entries) <==> e.left.None? || AnyPositional(more) by {
      AnyOf(e, more);
    }
  }

  lemma AnyOf(e: EntryForm, more: seq<EntryForm>)
    ensures AnyKeyed([e] + more) <==> e.left.Some? || AnyKeyed(more)
    ensures AnyPositional([e] + more) <==> e.left.None? || AnyPositional(more)
  {
    var all := [e] + more;
    assert all[0] == e && forall i :: 0 <= i < |more| ==> all[i + 1] == more[i];
  }

  /** What follows the value of an entry. */
  function AfterValue(e: EntryForm, follow: string): (r: string) {
    TriviaThen(e.tail, SeparatorThen(e.separator, follow))
  }

  lemma AfterValueFollows(e: EntryForm, follow: string)
    requires ProperEntry(e) && (e.separator.None? ==> Starts(follow, '}'))
    ensures MayFollow(e.value, AfterValue(e, follow))
    ensures SkipTrivia(AfterValue(e, follow)) == SeparatorThen(e.separator, follow)
  {
    var next := SeparatorThen(e.separator, follow);
    TriviaSkips(e.tail, next);
    FirmStays(next);
    TriviaNoIdentifier(e.tail, next);
    hide SkipTrivia, TriviaThen;
    if e.tail != [] {
      TriviaStarts(e.tail, next);
    } else {
      TriviaNone(next);
    }
  }

  lemma TriviaNone(rest: string)
    ensures TriviaThen([], rest) == rest
  {
  }

  lemma NextReads(e: EntryForm, follow: string, fields: seq<Field>, items: seq<Value>, keyed: bool, positional: bool)
    requires ProperEntry(e) && (e.separator.None? ==> Starts(follow, '}'))
    ensures NextEntry(AfterValue(e, follow), fields, items, keyed, positional) ==
      ReadEntries(follow, fields, items, keyed, positional)
  {
    AfterValueFollows(e, follow);
    hide SkipTrivia, ReadEntries, AfterValue, ProperEntry;
    assert e.separator.Some? ==> ([e.separator.value] + follow)[1..] == follow;
    assert e.separator.Some? ==> e.separator.value == ',' || e.separator.value == ';' by {
      ProperSeparator(e);
    }
  }

  lemma ProperSeparator(e: EntryForm)
    requires ProperEntry(e)
    ensures e.separator.Some? ==> e.separator.value == ',' || e.separator.value == ';'
  {
  }

  /** The entry at the head of a table, when its value is known to be read. */
  lemma EntryReads(e: EntryForm, follow: string, fields: seq<Field>, items: seq<Value>, keyed: bool, positional: bool)
    requires ProperEntry(e) && (e.separator.None? ==> Starts(follow, '}'))
    requires ReadValue(ValueThen(e.value, AfterValue(e, follow))) ==
      if Means(e.value) then Ok(Meaning(e.value), AfterValue(e, follow)) else Fail
    ensures ReadEntries(EntryThen(e, follow), fields, items, keyed, positional) ==
      if !Means(e.value) then Fail
      else if e.left.Some? then
        ReadEntries(follow, Put(fields, KeyValue(e.left.value.key), Meaning(e.value)), items, true, positional)
      else ReadEntries(follow, fields, items + [Meaning(e.value)], keyed, true)
  {
    var value := ValueThen(e.value, AfterValue(e, follow));
    AfterValueFollows(e, follow);
    ValueStarts(e.value, AfterValue(e, follow));
    var start := if e.left.Some? then AssignmentThen(e.left.value, value) else value;
    assert EntryThen(e, follow) == TriviaThen(e.lead, start);
    if e.left.Some? {
      AssignmentReads(e.left.value, value);
    }
    TriviaSkips(e.lead, start);
    FirmStays(start);
    if Means(e.value) {
      if e.left.Some? {
        NextReads(e, follow, Put(fields, KeyValue(e.left.value.key), Meaning(e.value)), items, true, positional);
        TriviaSkips(e.left.value.after, value);
        FirmStays(value);
      } else {
        NextReads(e, follow, fields, items + [Meaning(e.value)], keyed, true);
      }
    } else if e.left.Some? {
      TriviaSkips(e.left.value.after, value);
      FirmStays(value);
    }
    hide SkipTrivia, ReadValue, ReadAssignment, NextEntry, ValueThen, AfterValue, TriviaThen, EntryThen, AssignmentThen;
    hide Put, KeyValue, Meaning, Means, ProperEntry, MayFollow;
    var s := TriviaThen(e.lead, start);
    assert SkipTrivia(s) == start && !Starts(start, '}');
  }

  lemma CloseReads(close: Trivia, rest: string, fields: seq<Field>, items: seq<Value>, keyed: bool, positional: bool)
    requires ProperTrivia(close)
    ensures ReadEntries(TriviaThen(close, ['}'] + rest), fields, items, keyed, positional) ==
      if keyed && positional then Fail else Ok(if positional then Arr(items) else Obj(fields), rest)
  {
    var brace := ['}'] + rest;
    TriviaSkips(close, brace);
    FirmStays(brace);
    hide SkipTrivia, TriviaThen;
    assert brace[1..] == rest;
  }

  /** Whatever the form of the entries, reading them gives what they mean. */
  lemma {:induction false} EntriesRead(entries: seq<EntryForm>, close: Trivia, rest: string, fields: seq<Field>,
                                       items: seq<Value>, keyed: bool, positional: bool)
    requires ProperEntries(entries) && ProperTrivia(close) && Closes(entries, close)
    ensures ReadEntries(EntriesThen(entries, TriviaThen(close, ['}'] + rest)), fields, items, keyed, positional) ==
      Outcome(entries, rest, fields, items, keyed, positional)
    decreases entries, 0
  {
    if entries == [] {
      CloseReads(close, rest, fields, items, keyed, positional);
    } else {
      var e, more := entries[0], entries[1..];
      var follow := EntriesThen(more, TriviaThen(close, ['}'] + rest));
      assert more != [] ==> more[|more| - 1] == entries[|entries| - 1];
      if e.separator.None? {
        assert more == [] && close == [];
      }
      AfterValueFollows(e, follow);
      ValueReads(e.value, AfterValue(e, follow));
      EntryReads(e, follow, fields, items, keyed, positional);
      OutcomeStep(entries, rest, fields, items, keyed, positional);
      hide ReadEntries, ReadValue, EntryThen, ValueThen, AfterValue, Outcome, Put, KeyValue, Meaning, TriviaThen;
      if Means(e.value) {
        if e.left.Some? {
          EntriesRead(more, close, rest, Put(fields, KeyValue(e.left.value.key), Meaning(e.value)), items, true,
                      positional);
        } else {
          EntriesRead(more, close, rest, fields, items + [Meaning(e.value)], keyed, true);
        }
      }
    }
  }

  /** A value is read in any of its forms, and stops where the form ends; a table that mixes keyed and
      positional entries is refused, at whatever depth. */
  lemma {:induction false} ValueReads(v: ValueForm, rest: string)
    requires ProperValue(v) && MayFollow(v, rest)
    ensures ReadValue(ValueThen(v, rest)) == if Means(v) then Ok(Meaning(v), rest) else Fail
    decreases v, 1
  {
    var s := ValueThen(v, rest);
    match v
    case NilForm => KeywordReads("nil", Null, rest);
    case BoolForm(b) => KeywordReads(if b then "true" else "false", Bool(b), rest);
    case IntForm(sign, digits) =>
      IntReads(sign, digits, rest);
      hide ReadScalar, Number;
    case StringForm(literal) =>
      LiteralReads(literal, rest);
      hide ReadString, LettersValue;
    case TableForm(entries, close) =>
      EntriesRead(entries, close, rest, [], [], false, false);
      assert s[1..] == EntriesThen(entries, TriviaThen(close, ['}'] + rest));
      hide ReadEntries, EntriesThen, TriviaThen;
  }

  lemma KeywordReads(word: string, v: Value, rest: string)
    requires NoIdentifier(rest)
    requires (word, v) == ("true", Bool(true)) || (word, v) == ("false", Bool(false)) || (word, v) == ("nil", Null)
    ensures ReadValue(word + rest) == Ok(v, rest)
  {
    WordReads(word, rest);
    hide AfterKeyword, ReadKey, TokenLength;
    assert (word + rest)[0] == word[0];
  }

  // ----- documents -----

  /** The first entry whose value means nothing. */
  function FirstMeaningless(entries: seq<EntryForm>): (k: nat)
    ensures k <= |entries|
    ensures k < |entries| ==> !Means(entries[k].value)
    ensures forall i :: 0 <= i < k ==> Means(entries[i].value)
  {
    if entries == [] || !Means(entries[0].value) then 0 else 1 + FirstMeaningless(entries[1..])
  }

  function DocumentOutcome(entries: seq<EntryForm>, rest: string, fields: seq<Field>): (r: DocumentRead)
    requires forall i :: 0 <= i < |entries| ==> entries[i].left.Some?
  {
    var k := FirstMeaningless(entries);
    if k < |entries| then DocumentError(InvalidValue(KeyValue(entries[k].left.value.key)))
    else Document(FieldsOf(fields, entries), rest)
  }

  lemma DocumentEntryReads(e: EntryForm, follow: string, fields: seq<Field>)
    requires ProperEntry(e) && (e.separator.None? ==> Starts(follow, '}')) && e.left.Some?
    ensures ReadDocument(EntryThen(e, follow), fields) ==
      if !Means(e.value) then DocumentError(InvalidValue(KeyValue(e.left.value.key)))
      else ReadDocument(follow, Put(fields, KeyValue(e.left.value.key), Meaning(e.value)))
  {
    var value := ValueThen(e.value, AfterValue(e, follow));
    AfterValueFollows(e, follow);
    ValueStarts(e.value, AfterValue(e, follow));
    ValueReads(e.value, AfterValue(e, follow));
    var start := AssignmentThen(e.left.value, value);
    assert EntryThen(e, follow) == TriviaThen(e.lead, start);
    AssignmentReads(e.left.value, value);
    TriviaSkips(e.lead, start);
    FirmStays(start);
    TriviaSkips(e.left.value.after, value);
    FirmStays(value);
    ProperSeparator(e);
    hide SkipTrivia, ReadValue, ReadKey, ValueThen, AfterValue, TriviaThen, EntryThen, AssignmentThen;
    hide Put, KeyValue, Meaning, Means, ProperEntry, MayFollow;
    var equals := ['='] + TriviaThen(e.left.value.after, value);
    assert equals[1..] == TriviaThen(e.left.value.after, value);
    assert e.separator.Some? ==> ([e.separator.value] + follow)[1..] == follow;
  }

  lemma {:induction false} DocumentReads(entries: seq<EntryForm>, close: Trivia, rest: string, fields: seq<Field>)
    requires ProperEntries(entries) && ProperTrivia(close) && Closes(entries, close)
    requires forall i :: 0 <= i < |entries| ==> entries[i].left.Some?
    ensures ReadDocument(EntriesThen(entries, TriviaThen(close, ['}'] + rest)), fields) ==
      DocumentOutcome(entries, rest, fields)
    decreases entries
  {
    if entries == [] {
      var brace := ['}'] + rest;
      TriviaSkips(close, brace);
      FirmStays(brace);
      hide SkipTrivia, TriviaThen;
      assert brace[1..] == rest;
    } else {
      var e, more := entries[0], entries[1..];
      var follow := EntriesThen(more, TriviaThen(close, ['}'] + rest));
      assert more != [] ==> more[|more| - 1] == entries[|entries| - 1];
      if e.separator.None? {
        assert more == [] && close == [];
      }
      DocumentEntryReads(e, follow, fields);
      hide ReadDocument, EntryThen, ValueThen, Put, KeyValue, Meaning, TriviaThen;
      if Means(e.value) {
        DocumentReads(more, close, rest, Put(fields, KeyValue(e.left.value.key), Meaning(e.value)));
      }
    }
  }

  /** Whatever the form of a manifest, parsing its text checks the document it means; the one thing that can
      be wrong with a form is a table that mixes keyed and positional entries. */
  lemma FormIsParsed(m: ManifestForm)
    requires Proper(m)
    ensures Parse(Text(m)) ==
      match DocumentOutcome(m.entries, "", [])
      case DocumentError(error) => Rejected(error)
      case Document(fields, _) => CheckDocument(fields)
  {
    var end := TriviaThen(m.trail, TailText(m.tail));
    var table := EntriesThen(m.entries, TriviaThen(m.close, ['}'] + end));
    HeadIsParsed(m.lead, m.gap, table);
    DocumentReads(m.entries, m.close, end, []);
    TriviaSkips(m.trail, TailText(m.tail));
    TailSkips(m.tail);
    hide SkipTrivia, TriviaThen, EntriesThen, ReadDocument, CheckDocument, FieldsOf, KeyValue, Parse;
    hide ProperEntries, ProperTrivia, TailText, FirstMeaningless;
  }

  /** What stands in front of the table. */
  lemma HeadIsParsed(lead: Trivia, gap: Trivia, table: string)
    requires ProperTrivia(lead) && ProperTrivia(gap)
    ensures Parse(TriviaThen(lead, "return" + TriviaThen(gap, ['{'] + table))) ==
      match ReadDocument(table, [])
      case DocumentError(error) => Rejected(error)
      case Document(fields, rest) =>
        if SkipTrivia(rest) != [] then Rejected(TrailingContent) else CheckDocument(fields)
  {
    var brace := ['{'] + table;
    var inner := TriviaThen(gap, brace);
    TriviaSkips(lead, "return" + inner);
    ReturnIsFirm(inner);
    TriviaNoIdentifier(gap, brace);
    ReturnReads(inner);
    TriviaSkips(gap, brace);
    FirmStays(brace);
    hide SkipTrivia, TriviaThen, ReadDocument, CheckDocument, AfterKeyword, ProperTrivia;
    assert brace[1..] == table;
  }

  lemma ReturnIsFirm(rest: string)
    ensures SkipTrivia("return" + rest) == "return" + rest
  {
    FirmStays("return" + rest);
  }

  lemma ReturnReads(rest: string)
    requires NoIdentifier(rest)
    ensures AfterKeyword("return" + rest, "return") == Some(rest)
  {
    var s := "return" + rest;
    assert "return" <= s && s[|"return"|..] == rest;
  }

  // ----- every accepted text is a form -----

  lemma {:induction false} LineForm(s: string) returns (text: string)
    ensures s == text + FromLineEnd(s) && NoLineEnd(text)
    ensures FromLineEnd(s) == [] || FromLineEnd(s)[0] == '\r' || FromLineEnd(s)[0] == '\n'
    decreases |s|
  {
    text := [];
    if s != [] && s[0] != '\r' && s[0] != '\n' {
      var more := LineForm(s[1..]);
      text := [s[0]] + more;
    }
  }

  lemma {:induction false} BlockForm(s: string) returns (text: string)
    requires AfterBlockComment(s).Some?
    ensures s == text + "]]" + AfterBlockComment(s).value && NoCloseBefore(text + "]]", |text|)
    decreases |s|
  {
    if s[0] == ']' && s[1] == ']' {
      text := [];
      assert s == s[..2] + s[2..];
    } else {
      var more := BlockForm(s[1..]);
      text := [s[0]] + more;
      assert s == [s[0]] + s[1..];
      assert text + "]]" == [s[0]] + (more + "]]");
      assert s[1] == (more + "]]")[0];
    }
  }

  lemma {:induction false} OpenBlockForm(s: string)
    requires AfterBlockComment(s).None?
    ensures NoCloseBefore(s, |s|)
    decreases |s|
  {
    if |s| >= 2 {
      OpenBlockForm(s[1..]);
      assert forall i :: 0 < i < |s| ==> s[i] == s[1..][i - 1];
    }
  }

  /** What is skipped is trivia, and at the end of the text perhaps a comment that is cut off. */
  lemma {:induction false} TriviaForm(s: string) returns (t: Trivia, tail: Tail)
    ensures ProperTrivia(t) && ProperTail(tail)
    ensures if SkipTrivia(s) == [] then s == TriviaThen(t, TailText(tail)) else s == TriviaThen(t, SkipTrivia(s))
    ensures t != [] ==> s != [] && if t[0].Blank? then IsSpace(s[0]) else s[0] == '-'
    decreases |s|
  {
    t, tail := [], NoTail;
    if s == [] {
    } else if IsSpace(s[0]) {
      t, tail := TriviaForm(s[1..]);
      t := MoreTrivia(Blank(s[0]), s, s[1..], t, tail);
    } else if |s| < 2 || s[0] != '-' || s[1] != '-' {
    } else if |s| >= 4 && s[2] == '[' && s[3] == '[' {
      if AfterBlockComment(s[4..]).None? {
        OpenBlockForm(s[4..]);
        tail := OpenBlock(s[4..]);
        assert s == "--[[" + s[4..];
      } else {
        var text := BlockForm(s[4..]);
        var rest := AfterBlockComment(s[4..]).value;
        assert s == "--[[" + s[4..];
        assert s == PieceText(BlockComment(text)) + rest;
        t, tail := TriviaForm(rest);
        t := MoreTrivia(BlockComment(text), s, rest, t, tail);
      }
    } else {
      t, tail := LineTrivia(s);
    }
  }

  lemma MoreTrivia(p: Piece, s: string, rest: string, t: Trivia, tail: Tail) returns (more: Trivia)
    requires ProperPiece(p) && s == PieceText(p) + rest && ProperTrivia(t)
    requires if SkipTrivia(rest) == [] then rest == TriviaThen(t, TailText(tail))
      else rest == TriviaThen(t, SkipTrivia(rest))
    ensures ProperTrivia(more) && more == [p] + t
    ensures if SkipTrivia(s) == [] then s == TriviaThen(more, TailText(tail)) else s == TriviaThen(more, SkipTrivia(s))
  {
    more := [p] + t;
    assert more[1..] == t;
    PieceSkips(p, rest);
    hide SkipTrivia, PieceText, ProperPiece;
  }

  lemma {:induction false} LineTrivia(s: string) returns (t: Trivia, tail: Tail)
    requires |s| >= 2 && s[0] == '-' && s[1] == '-' && !(|s| >= 4 && s[2] == '[' && s[3] == '[')
    ensures ProperTrivia(t) && ProperTail(tail)
    ensures if SkipTrivia(s) == [] then s == TriviaThen(t, TailText(tail)) else s == TriviaThen(t, SkipTrivia(s))
    decreases |s|, 0
  {
    var text := LineForm(s[2..]);
    var rest := FromLineEnd(s[2..]);
    LineIsProper(s, text, rest);
    if rest == [] {
      t, tail := [], OpenLine(text);
      TailSkips(tail);
      hide SkipTrivia;
    } else {
      t, tail := TriviaForm(rest[1..]);
      hide SkipTrivia, PieceText, TriviaThen, ProperPiece;
      t := MoreTrivia(LineComment(text, rest[0]), s, rest[1..], t, tail);
    }
  }

  lemma LineIsProper(s: string, text: string, rest: string)
    requires |s| >= 2 && s[0] == '-' && s[1] == '-' && !(|s| >= 4 && s[2] == '[' && s[3] == '[')
    requires s[2..] == text + rest && NoLineEnd(text) && (rest == [] || rest[0] == '\r' || rest[0] == '\n')
    ensures if rest == [] then s == TailText(OpenLine(text)) && ProperTail(OpenLine(text))
      else s == PieceText(LineComment(text, rest[0])) + rest[1..] && ProperPiece(LineComment(text, rest[0]))
  {
    assert s == "--" + s[2..];
    assert |text| >= 2 ==> s[2] == text[0] && s[3] == text[1];
    if rest == [] {
      assert s[2..] == text;
    } else {
      assert rest == [rest[0]] + rest[1..];
    }
  }

  /** Trivia in front of something. */
  lemma LeadForm(s: string) returns (t: Trivia)
    requires SkipTrivia(s) != []
    ensures ProperTrivia(t) && s == TriviaThen(t, SkipTrivia(s))
    ensures t != [] ==> s != [] && if t[0].Blank? then IsSpace(s[0]) else s[0] == '-'
  {
    var tail;
    t, tail := TriviaForm(s);
  }

  lemma {:induction false} LettersForm(s: string, quote: char) returns (letters: seq<Letter>)
    requires ReadQuoted(s, quote).Ok?
    ensures s == LettersThen(letters, [quote] + ReadQuoted(s, quote).rest)
    ensures forall i :: 0 <= i < |letters| && letters[i].Plain? ==> letters[i].c != quote && letters[i].c != '\\'
    decreases |s|
  {
    if s[0] == quote {
      letters := [];
      assert s == [quote] + s[1..];
    } else if s[0] != '\\' {
      var more := LettersForm(s[1..], quote);
      letters := [Plain(s[0])] + more;
      assert letters[1..] == more && s == [s[0]] + s[1..];
    } else {
      var more := LettersForm(s[2..], quote);
      letters := [Escaped(s[1])] + more;
      assert letters[1..] == more && s == ['\\', s[1]] + s[2..];
    }
  }

  lemma LiteralForm(s: string) returns (l: Literal)
    requires ReadString(s).Ok?
    ensures ProperLiteral(l) && s == LiteralThen(l, ReadString(s).rest)
  {
    var letters := LettersForm(s[1..], s[0]);
    l := Literal(s[0], letters);
    hide ReadQuoted, LettersThen;
    assert s == [s[0]] + s[1..];
  }

  lemma {:induction false} WordForm(s: string)
    ensures forall i :: 0 <= i < IdentifierLength(s) ==> IsIdentifierCharacter(s[i])
    decreases |s|
  {
    if s != [] && IsIdentifierCharacter(s[0]) {
      WordForm(s[1..]);
    }
  }

  lemma PlainKeyForm(s: string) returns (k: KeyForm)
    requires s != [] && IsIdentifierStart(s[0])
    ensures ProperKey(k) && ReadKey(s).Ok? && s == KeyThen(k, ReadKey(s).rest)
  {
    WordForm(s);
    k := PlainKey(s[..IdentifierLength(s)]);
  }

  lemma BracketKeyForm(s: string) returns (k: KeyForm)
    requires ReadKey(s).Ok? && !IsIdentifierStart(s[0])
    ensures ProperKey(k) && s == KeyThen(k, ReadKey(s).rest)
  {
    hide SkipTrivia, ReadString, TriviaThen, LiteralThen, ProperTrivia, ProperLiteral, IdentifierLength;
    var s1 := SkipTrivia(s[1..]);
    ReadNothing();
    var before := LeadForm(s[1..]);
    var literal := LiteralForm(s1);
    var rest := ReadString(s1).rest;
    var after := LeadForm(rest);
    k := BracketKey(before, literal, after);
    var close := SkipTrivia(rest);
    assert close == [']'] + close[1..] && s == ['['] + s[1..];
  }

  lemma ReadNothing()
    ensures ReadString([]).Fail?
  {
  }

  lemma KeyFormOf(s: string) returns (k: KeyForm)
    requires ReadKey(s).Ok?
    ensures ProperKey(k) && s == KeyThen(k, ReadKey(s).rest)
  {
    if IsIdentifierStart(s[0]) {
      k := PlainKeyForm(s);
    } else {
      k := BracketKeyForm(s);
    }
  }

  lemma AssignmentForm(s: string, gap: Trivia) returns (a: Assignment)
    requires ReadAssignment(s).Ok? && ProperTrivia(gap)
    requires SkipTrivia(ReadAssignment(s).rest) != []
    requires ReadAssignment(s).rest == TriviaThen(gap, SkipTrivia(ReadAssignment(s).rest))
    ensures ProperAssignment(a) && s == AssignmentThen(a, SkipTrivia(ReadAssignment(s).rest))
  {
    hide SkipTrivia, ReadKey, TriviaThen, KeyThen, ProperTrivia, ProperKey;
    var key := KeyFormOf(s);
    var rest := ReadKey(s).rest;
    var before := LeadForm(rest);
    a := Assignment(key, before, gap);
    var equals := SkipTrivia(rest);
    assert equals == ['='] + equals[1..];
  }

  lemma {:induction false} TokenForm(s: string)
    ensures EndsNumber(s[TokenLength(s)..])
    decreases |s|
  {
    if s != [] && !EndsNumber(s) {
      TokenForm(s[1..]);
      assert s[TokenLength(s)..] == s[1..][TokenLength(s[1..])..];
    }
  }

  lemma NumberForm(token: string) returns (sign: string, digits: Digits)
    requires ParseInteger(token).Some?
    ensures ProperInt(sign, digits) && token == sign + digits
  {
    hide DigitsValue;
    if Starts(token, '-') || Starts(token, '+') {
      sign, digits := [token[0]], token[1..];
      assert sign == "-" || sign == "+";
    } else {
      sign, digits := "", token;
    }
  }

  lemma KeywordForm(s: string, keyword: string)
    requires AfterKeyword(s, keyword).Some?
    ensures s == keyword + AfterKeyword(s, keyword).value
  {
    assert s == s[..|keyword|] + s[|keyword|..];
  }

  lemma ScalarForm(s: string) returns (v: ValueForm)
    requires ReadScalar(s).Ok?
    ensures ProperValue(v) && s == ValueThen(v, ReadScalar(s).rest) && !v.TableForm?
    ensures v.IntForm? ==> EndsNumber(ReadScalar(s).rest)
  {
    hide TokenLength, ParseInteger, AfterKeyword, ProperInt;
    if AfterKeyword(s, "true").Some? {
      v := BoolForm(true);
      KeywordForm(s, "true");
    } else if AfterKeyword(s, "false").Some? {
      v := BoolForm(false);
      KeywordForm(s, "false");
    } else if AfterKeyword(s, "nil").Some? {
      v := NilForm;
      KeywordForm(s, "nil");
    } else {
      var n := TokenLength(s);
      TokenForm(s);
      var sign, digits := NumberForm(s[..n]);
      v := IntForm(sign, digits);
      assert s == s[..n] + s[n..];
    }
  }

  lemma {:induction false} ValueFormOf(s: string) returns (v: ValueForm)
    requires ReadValue(s).Ok?
    ensures ProperValue(v) && s == ValueThen(v, ReadValue(s).rest)
    ensures v.IntForm? ==> EndsNumber(ReadValue(s).rest)
    decreases |s|, 0
  {
    if Starts(s, '\'') || Starts(s, '"') {
      var l := LiteralForm(s);
      v := StringForm(l);
      hide ReadString, LiteralThen;
    } else if Starts(s, '{') {
      var entries, close := EntriesForm(s[1..], [], [], false, false);
      v := TableForm(entries, close);
      hide ReadEntries, EntriesThen, TriviaThen, ProperEntries;
      assert s == ['{'] + s[1..];
    } else {
      v := ScalarForm(s);
      hide ReadScalar, ValueThen, ProperValue;
    }
  }

  /** What stands between a value and the next entry. */
  lemma AfterForm(v: ValueForm, s: string) returns (tail: Trivia, separator: Option<char>, follow: string)
    requires var after := SkipTrivia(s); Starts(after, ',') || Starts(after, ';') || Starts(after, '}')
    requires v.IntForm? ==> EndsNumber(s)
    ensures ProperTrivia(tail) && s == TriviaThen(tail, SeparatorThen(separator, follow))
    ensures v.IntForm? && tail != [] ==> tail[0].Blank?
    ensures separator.Some? ==> separator.value == ',' || separator.value == ';'
    ensures separator.None? ==> Starts(follow, '}')
    ensures follow == if Starts(SkipTrivia(s), '}') then SkipTrivia(s) else SkipTrivia(s)[1..]
  {
    tail := LeadForm(s);
    var after := SkipTrivia(s);
    hide SkipTrivia, TriviaThen;
    if Starts(after, '}') {
      separator, follow := None, after;
    } else {
      separator, follow := Some(after[0]), after[1..];
      assert after == [after[0]] + after[1..];
    }
  }

  /** The entry at the head of a table that is read. */
  lemma PositionalForm(s: string) returns (e: EntryForm, follow: string)
    requires ReadAssignment(SkipTrivia(s)).Fail? && ReadValue(SkipTrivia(s)).Ok?
    requires var after := SkipTrivia(ReadValue(SkipTrivia(s)).rest);
      Starts(after, ',') || Starts(after, ';') || Starts(after, '}')
    ensures ProperEntry(e) && s == EntryThen(e, follow) && e.left.None?
    ensures e.separator.None? ==> Starts(follow, '}')
    ensures var after := SkipTrivia(ReadValue(SkipTrivia(s)).rest);
      follow == if Starts(after, '}') then after else after[1..]
    decreases |s|, 1
  {
    var start := SkipTrivia(s);
    var lead := LeadForm(s);
    var v := ValueFormOf(start);
    var tail, separator;
    tail, separator, follow := AfterForm(v, ReadValue(start).rest);
    e := EntryForm(lead, None, v, tail, separator);
    hide SkipTrivia, ReadValue, TriviaThen, ValueThen, SeparatorThen, ProperValue, ProperTrivia;
  }

  lemma KeyedForm(s: string) returns (e: EntryForm, follow: string)
    requires ReadAssignment(SkipTrivia(s)).Ok?
    requires ReadValue(SkipTrivia(ReadAssignment(SkipTrivia(s)).rest)).Ok?
    requires var after := SkipTrivia(ReadValue(SkipTrivia(ReadAssignment(SkipTrivia(s)).rest)).rest);
      Starts(after, ',') || Starts(after, ';') || Starts(after, '}')
    ensures ProperEntry(e) && s == EntryThen(e, follow) && e.left.Some?
    ensures e.separator.None? ==> Starts(follow, '}')
    ensures var after := SkipTrivia(ReadValue(SkipTrivia(ReadAssignment(SkipTrivia(s)).rest)).rest);
      follow == if Starts(after, '}') then after else after[1..]
    decreases |s|, 1
  {
    var s1 := SkipTrivia(s);
    var rest := ReadAssignment(s1).rest;
    var start := SkipTrivia(rest);
    var lead := LeadForm(s);
    var gap := LeadForm(rest);
    var a := AssignmentForm(s1, gap);
    var v := ValueFormOf(start);
    var tail, separator;
    tail, separator, follow := AfterForm(v, ReadValue(start).rest);
    e := EntryForm(lead, Some(a), v, tail, separator);
    hide SkipTrivia, ReadValue, TriviaThen, ValueThen, SeparatorThen, ProperValue, ProperTrivia, AssignmentThen;
    hide ProperAssignment;
  }

  lemma CloseForm(s: string) returns (close: Trivia)
    requires Starts(SkipTrivia(s), '}')
    ensures ProperTrivia(close) && s == TriviaThen(close, ['}'] + SkipTrivia(s)[1..])
    ensures Starts(s, '}') ==> close == []
  {
    close := LeadForm(s);
    hide SkipTrivia, TriviaThen, ProperTrivia;
    assert SkipTrivia(s) == ['}'] + SkipTrivia(s)[1..];
  }

  lemma NoEntries(rest: string, close: Trivia)
    ensures EntriesThen([], rest) == rest && ProperEntries([]) && Closes([], close)
  {
  }

  lemma CloseStep(s: string, fields: seq<Field>, items: seq<Value>, keyed: bool, positional: bool)
    requires ReadEntries(s, fields, items, keyed, positional).Ok? && Starts(SkipTrivia(s), '}')
    ensures ReadEntries(s, fields, items, keyed, positional).rest == SkipTrivia(s)[1..]
  {
    hide SkipTrivia;
  }

  /** The entries of a table that is read, up to its closing brace. */
  lemma {:induction false} EntriesForm(s: string, fields: seq<Field>, items: seq<Value>, keyed: bool, positional: bool)
    returns (entries: seq<EntryForm>, close: Trivia)
    requires ReadEntries(s, fields, items, keyed, positional).Ok?
    ensures ProperEntries(entries) && ProperTrivia(close) && Closes(entries, close)
    ensures s == EntriesThen(entries, TriviaThen(close,
      ['}'] + ReadEntries(s, fields, items, keyed, positional).rest))
    ensures Starts(s, '}') ==> entries == [] && close == []
    decreases |s|, 2
  {
    hide SkipTrivia, ReadValue, ReadAssignment, ReadEntries, TriviaThen, EntryThen, EntriesThen, Put;
    hide ProperEntry, ProperEntries, ProperTrivia, Closes;
    var s1 := SkipTrivia(s);
    if Starts(s1, '}') {
      entries := [];
      close := CloseForm(s);
      CloseStep(s, fields, items, keyed, positional);
      NoEntries(s, close);
    } else {
      var entry := ReadAssignment(s1);
      var e, follow, rest, last;
      if entry.Ok? {
        var r := ReadValue(SkipTrivia(entry.rest));
        KeyedStep(s, fields, items, keyed, positional);
        e, follow := KeyedForm(s);
        rest, last := EntriesForm(follow, Put(fields, entry.value, r.value), items, true, positional);
      } else {
        var r := ReadValue(s1);
        PositionalStep(s, fields, items, keyed, positional);
        e, follow := PositionalForm(s);
        rest, last := EntriesForm(follow, fields, items + [r.value], keyed, true);
      }
      BraceIsFirm(s);
      entries, close := [e] + rest, last;
      EntriesMore(e, rest, close);
    }
  }

  lemma BraceIsFirm(s: string)
    ensures Starts(s, '}') ==> Starts(SkipTrivia(s), '}')
  {
  }

  lemma KeyedStep(s: string, fields: seq<Field>, items: seq<Value>, keyed: bool, positional: bool)
    requires ReadEntries(s, fields, items, keyed, positional).Ok? && !Starts(SkipTrivia(s), '}')
    requires ReadAssignment(SkipTrivia(s)).Ok?
    ensures var entry := ReadAssignment(SkipTrivia(s));
      var r := ReadValue(SkipTrivia(entry.rest));
      && r.Ok?
      && var after := SkipTrivia(r.rest);
         && (Starts(after, ',') || Starts(after, ';') || Starts(after, '}'))
         && ReadEntries(s, fields, items, keyed, positional) ==
            ReadEntries(if Starts(after, '}') then after else after[1..],
              Put(fields, entry.value, r.value), items, true, positional)
  {
    hide SkipTrivia, ReadValue, ReadAssignment, Put;
  }

  lemma PositionalStep(s: string, fields: seq<Field>, items: seq<Value>, keyed: bool, positional: bool)
    requires ReadEntries(s, fields, items, keyed, positional).Ok? && !Starts(SkipTrivia(s), '}')
    requires ReadAssignment(SkipTrivia(s)).Fail?
    ensures var r := ReadValue(SkipTrivia(s));
      && r.Ok?
      && var after := SkipTrivia(r.rest);
         && (Starts(after, ',') || Starts(after, ';') || Starts(after, '}'))
         && ReadEntries(s, fields, items, keyed, positional) ==
            ReadEntries(if Starts(after, '}') then after else after[1..], fields, items + [r.value], keyed, true)
  {
    hide SkipTrivia, ReadValue, ReadAssignment, Put;
  }

  lemma EntriesMore(e: EntryForm, more: seq<EntryForm>, close: Trivia)
    requires ProperEntry(e) && ProperEntries(more) && Closes(more, close)
    requires e.separator.None? ==> more == [] && close == []
    ensures ProperEntries([e] + more) && Closes([e] + more, close)
    ensures forall rest :: EntriesThen([e] + more, rest) == EntryThen(e, EntriesThen(more, rest))
  {
    assert ([e] + more)[1..] == more;
    hide ProperEntry, EntryThen;
  }

  lemma {:induction false} DocumentForm(s: string, fields: seq<Field>) returns (entries: seq<EntryForm>, close: Trivia)
    requires ReadDocument(s, fields).Document?
    ensures ProperEntries(entries) && ProperTrivia(close) && Closes(entries, close)
    ensures forall i :: 0 <= i < |entries| ==> entries[i].left.Some?
    ensures s == EntriesThen(entries, TriviaThen(close, ['}'] + ReadDocument(s, fields).rest))
    ensures Starts(s, '}') ==> entries == [] && close == []
    decreases |s|
  {
    hide SkipTrivia, ReadValue, ReadAssignment, ReadDocument, TriviaThen, EntryThen, EntriesThen, Put;
    hide ProperEntry, ProperEntries, ProperTrivia, Closes;
    var s1 := SkipTrivia(s);
    if Starts(s1, '}') {
      entries := [];
      close := CloseForm(s);
      DocumentCloses(s, fields);
      NoEntries(s, close);
    } else {
      DocumentStep(s, fields);
      var entry := ReadAssignment(s1);
      var r := ReadValue(SkipTrivia(entry.rest));
      var e, follow := KeyedForm(s);
      var rest, last := DocumentForm(follow, Put(fields, entry.value, r.value));
      BraceIsFirm(s);
      entries, close := [e] + rest, last;
      EntriesMore(e, rest, close);
    }
  }

  lemma DocumentCloses(s: string, fields: seq<Field>)
    requires Starts(SkipTrivia(s), '}')
    ensures ReadDocument(s, fields).Document? && ReadDocument(s, fields).rest == SkipTrivia(s)[1..]
  {
    hide SkipTrivia;
  }

  lemma DocumentStep(s: string, fields: seq<Field>)
    requires ReadDocument(s, fields).Document? && !Starts(SkipTrivia(s), '}')
    ensures var entry := ReadAssignment(SkipTrivia(s));
      && entry.Ok?
      && var r := ReadValue(SkipTrivia(entry.rest));
         && r.Ok?
         && var after := SkipTrivia(r.rest);
            && (Starts(after, ',') || Starts(after, ';') || Starts(after, '}'))
            && ReadDocument(s, fields) ==
               ReadDocument(if Starts(after, '}') then after else after[1..], Put(fields, entry.value, r.value))
  {
    hide SkipTrivia, ReadValue, ReadKey, Put;
  }

  /** Every accepted text is the text of a proper form. */
  lemma AcceptedForm(s: string) returns (m: ManifestForm)
    requires Parse(s).Accepted?
    ensures Proper(m) && s == Text(m)
  {
    var s1 := SkipTrivia(s);
    var after := AfterKeyword(s1, "return").value;
    var s2 := SkipTrivia(after);
    var document := ReadDocument(s2[1..], []);
    KeywordForm(s1, "return");
    var lead := LeadForm(s);
    var gap := LeadForm(after);
    var entries, close := DocumentForm(s2[1..], []);
    var trail, tail := TriviaForm(document.rest);
    m := ManifestForm(lead, gap, entries, close, trail, tail);
    hide SkipTrivia, ReadDocument, AfterKeyword, TriviaThen, EntriesThen, TailText, ProperEntries;
    assert s2 == ['{'] + s2[1..];
  }

  /** The manifest that a form stands for: nothing when a table mixes keyed and positional entries, or when
      the document fails its checks. */
  ghost predicate StandsFor(m: ManifestForm, r: ManifestResult) {
    && r.Accepted? && (forall i :: 0 <= i < |m.entries| ==> Means(m.entries[i].value))
    && r == CheckDocument(FieldsOf([], m.entries))
  }

  /** The parser and the grammar agree: a text is accepted with a result exactly when it is the text of some
      proper form that stands for this result. */
  lemma ParseIsGrammar(s: string, r: ManifestResult)
    ensures r.Accepted? && Parse(s) == r <==> exists m :: Proper(m) && s == Text(m) && StandsFor(m, r)
  {
    hide Parse, CheckDocument, FieldsOf, Means, Proper, Text;
    if r.Accepted? && Parse(s) == r {
      var m := AcceptedForm(s);
      FormStandsFor(m, r);
    }
    forall m | Proper(m) && s == Text(m) && StandsFor(m, r) ensures Parse(s) == r {
      FormStandsFor(m, r);
    }
  }

  lemma FormStandsFor(m: ManifestForm, r: ManifestResult)
    requires Proper(m)
    ensures StandsFor(m, r) <==> r.Accepted? && Parse(Text(m)) == r
  {
    FormIsParsed(m);
    hide Parse, CheckDocument, FieldsOf, Means, Text;
  }

  // ----- what the entries of a table bind -----

  lemma {:induction false} LookupPut(fields: seq<Field>, key: string, value: Value, other: string)
    ensures Lookup(Put(fields, key, value), other) == if other == key then Some(value) else Lookup(fields, other)
    decreases |fields|
  {
    hide Less;
    if fields != [] && fields[0].key != key && !Less(key, fields[0].key) {
      LookupPut(fields[1..], key, value, other);
    }
  }

  /** The value of the last entry with this key. */
  function LastFor(entries: seq<EntryForm>, key: string): (r: Option<ValueForm>) {
    if entries == [] then None
    else if LastFor(entries[1..], key).Some? then LastFor(entries[1..], key)
    else if entries[0].left.Some? && KeyValue(entries[0].left.value.key) == key then Some(entries[0].value)
    else None
  }

  /** A key is bound to what its last entry means; without an entry its binding is left alone. */
  lemma {:induction false} LastEntryCounts(fields: seq<Field>, entries: seq<EntryForm>, key: string)
    ensures Lookup(FieldsOf(fields, entries), key) ==
      if LastFor(entries, key).Some? then Some(Meaning(LastFor(entries, key).value)) else Lookup(fields, key)
    decreases |entries|
  {
    hide Lookup, Put, KeyValue, Meaning;
    if entries != [] {
      var e := entries[0];
      if e.left.Some? {
        LookupPut(fields, KeyValue(e.left.value.key), Meaning(e.value), key);
        LastEntryCounts(Put(fields, KeyValue(e.left.value.key), Meaning(e.value)), entries[1..], key);
      } else {
        LastEntryCounts(fields, entries[1..], key);
      }
    }
  }

  // ----- what a document says -----

  lemma {:induction false} LookupIs(fields: seq<Field>, key: string)
    requires Sorted(fields)
    ensures forall v :: Lookup(fields, key) == Some(v) <==> Field(key, v) in fields
    decreases |fields|
  {
    if fields != [] {
      var rest := fields[1..];
      assert fields == [fields[0]] + rest;
      LookupIs(rest, key);
      forall v | Field(key, v) in rest ensures fields[0].key != key {
        var i :| 0 <= i < |rest| && rest[i] == Field(key, v);
        assert fields[i + 1] == rest[i];
        LessIsStrict(fields[0].key, fields[i + 1].key);
      }
    }
  }

  ghost predicate Absent(fields: seq<Field>, key: string) {
    forall v :: Field(key, v) !in fields
  }

  /** The fields of an implementation table, each a default when it is absent; an empty artifact counts as
      absent, and its default is the package's name. */
  ghost predicate DescribesImplementation(name: string, fields: seq<Field>, i: Implementation) {
    && (if Absent(fields, "artifact") || Field("artifact", Str("")) in fields then i.artifact == name
        else Field("artifact", Str(i.artifact)) in fields)
    && (if Absent(fields, "layout") then i.layout == "" else Field("layout", Str(i.layout)) in fields)
    && (if Absent(fields, "required") then !i.required else Field("required", Bool(i.required)) in fields)
  }

  ghost predicate DescribesManifest(fields: seq<Field>, m: PackageManifest) {
    && m.name != "" && Field("name", Str(m.name)) in fields
    && m.version != "" && Field("version", Str(m.version)) in fields
    && match m.implementation
       case None => Absent(fields, "implementation")
       case Some(i) => exists inner ::
         Field("implementation", Obj(inner)) in fields && DescribesImplementation(m.name, inner, i)
  }

  lemma ImplementationIs(name: string, fields: seq<Field>, i: Implementation)
    requires Sorted(fields)
    ensures ReadImplementation(name, fields) == Some(i) <==> DescribesImplementation(name, fields, i)
  {
    LookupIs(fields, "artifact");
    LookupIs(fields, "layout");
    LookupIs(fields, "required");
    hide Lookup, Sorted;
    FieldIs(fields, "artifact");
    FieldIs(fields, "layout");
    FieldIs(fields, "required");
  }

  lemma FieldIs(fields: seq<Field>, key: string)
    requires Sorted(fields)
    ensures match Lookup(fields, key)
      case None => Absent(fields, key)
      case Some(v) => Field(key, v) in fields && !Absent(fields, key) && forall w :: Field(key, w) in fields ==> w == v
  {
    LookupIs(fields, key);
    hide Lookup, Sorted;
  }

  /** A document is accepted with a manifest exactly when it says what the manifest says. */
  lemma CheckedIff(fields: seq<Field>, m: PackageManifest)
    requires WellFormed(Obj(fields))
    ensures CheckDocument(fields) == Accepted(fields, m) <==> DescribesManifest(fields, m)
  {
    FieldIs(fields, "name");
    FieldIs(fields, "version");
    FieldIs(fields, "implementation");
    var v := Lookup(fields, "implementation");
    if v.Some? && v.value.Obj? {
      InnerIsSorted(fields, v.value);
      forall i ensures
        ReadImplementation(m.name, v.value.fields) == Some(i) <==> DescribesImplementation(m.name, v.value.fields, i)
      {
        ImplementationIs(m.name, v.value.fields, i);
      }
    }
    hide Lookup, Sorted, ReadImplementation, DescribesImplementation, Absent, WellFormed, BadImplementationField;
  }

  lemma InnerIsSorted(fields: seq<Field>, v: Value)
    requires WellFormed(Obj(fields)) && Field("implementation", v) in fields && v.Obj?
    ensures Sorted(v.fields)
  {
    var i :| 0 <= i < |fields| && fields[i] == Field("implementation", v);
    assert WellFormed(fields[i].value);
  }
}
