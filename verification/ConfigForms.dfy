/** Configurations written by hand: the alias table in any form, with plain or bracketed keys, either quote,
    escapes, either separator, and white space and comments anywhere. */
module ConfigForms {
  import opened Wrappers
  import opened Characters
  import opened ConfigText
  import opened ConfigRoundTrip
  import Text = ManifestText
  import opened ManifestForms
  import Reads = ConfigReads

  // ----- the scanner and the manifest parser read the same tokens -----

  lemma {:induction false} BlockIsSame(s: string)
    ensures AfterBlock(s) == if Text.AfterBlockComment(s).Some? then Text.AfterBlockComment(s).value else []
    decreases |s|
  {
    if |s| >= 2 && !(s[0] == ']' && s[1] == ']') {
      BlockIsSame(s[1..]);
    }
  }

  lemma {:induction false} LineIsSame(s: string)
    ensures FromLineBreak(s) == Text.FromLineEnd(s)
    decreases |s|
  {
    if s != [] && s[0] != '\r' && s[0] != '\n' {
      LineIsSame(s[1..]);
    }
  }

  lemma {:induction false} SkipIsSame(s: string)
    ensures Skip(s) == Text.SkipTrivia(s)
    decreases |s|
  {
    hide AfterBlock, FromLineBreak, Text.AfterBlockComment, Text.FromLineEnd;
    if s == [] {
    } else if IsSpace(s[0]) {
      SkipIsSame(s[1..]);
    } else if CommentStarts(s) {
      LineIsSame(s[2..]);
      if BlockStarts(s[2..]) {
        assert s[2..][0] == s[2] && s[2..][1] == s[3];
        BlockIsSame(s[4..]);
      } else {
        assert |s| >= 4 ==> s[2..][0] == s[2] && s[2..][1] == s[3];
      }
      SkipIsSame(SkipComment(s));
    }
  }

  /** Trivia makes no difference to the scanner. */
  lemma TriviaIsSkipped(t: Trivia, rest: string)
    requires ProperTrivia(t)
    ensures Skip(TriviaThen(t, rest)) == Skip(rest)
  {
    SkipIsSame(TriviaThen(t, rest));
    SkipIsSame(rest);
    TriviaSkips(t, rest);
    hide Skip, Text.SkipTrivia, TriviaThen;
  }

  lemma FirmIsKept(s: string)
    requires Firm(s)
    ensures Skip(s) == s
  {
    SkipIsSame(s);
    FirmStays(s);
    hide Skip, Text.SkipTrivia;
  }

  lemma {:induction false} BodyIsSame(s: string, quote: char, done: string)
    requires Text.ReadQuoted(s, quote).Ok? && quote != '\\'
    ensures ReadBody(s, quote, done) ==
      Quoted(true, done + Text.ReadQuoted(s, quote).value, Text.ReadQuoted(s, quote).rest)
    ensures SkipBody(s, quote) == Skipped(true, Text.ReadQuoted(s, quote).rest)
    decreases |s|
  {
    var r := Text.ReadQuoted(s, quote);
    if s[0] == quote {
      assert done + [] == done;
    } else if s[0] != '\\' {
      BodyIsSame(s[1..], quote, done + [s[0]]);
      assert done + [s[0]] + Text.ReadQuoted(s[1..], quote).value == done + r.value;
    } else {
      BodyIsSame(s[2..], quote, done + [Unescaped(s[1])]);
      assert done + [Unescaped(s[1])] + Text.ReadQuoted(s[2..], quote).value == done + r.value;
    }
  }

  lemma LiteralIsRead(l: Literal, rest: string)
    requires ProperLiteral(l)
    ensures ReadQuoted(LiteralThen(l, rest)) == Quoted(true, LettersValue(l.letters), rest)
    ensures SkipQuoted(LiteralThen(l, rest)) == Skipped(true, rest)
    ensures LiteralThen(l, rest) != [] && IsQuote(LiteralThen(l, rest)[0])
    ensures Skip(LiteralThen(l, rest)) == LiteralThen(l, rest)
  {
    LiteralReads(l, rest);
    var s := LiteralThen(l, rest);
    BodyIsSame(s[1..], l.quote, []);
    FirmIsKept(s);
    hide ReadBody, SkipBody, Text.ReadQuoted, LettersThen, Skip;
    assert [] + LettersValue(l.letters) == LettersValue(l.letters);
  }

  // ----- alias tables -----

  /** A keyed entry whose value is a string. */
  predicate IsAlias(e: EntryForm) {
    e.left.Some? && e.value.StringForm?
  }

  predicate AllAliases(entries: seq<EntryForm>) {
    forall i :: 0 <= i < |entries| ==> IsAlias(entries[i])
  }

  function AliasOf(e: EntryForm): (a: Alias)
    requires IsAlias(e)
  {
    Alias(KeyValue(e.left.value.key), LettersValue(e.value.literal.letters))
  }

  function AliasesOf(entries: seq<EntryForm>): (r: seq<Alias>)
    requires AllAliases(entries)
  {
    if entries == [] then [] else [AliasOf(entries[0])] + AliasesOf(entries[1..])
  }

  lemma {:induction false} WordIs(word: string, rest: string, n: nat)
    requires |rest| >= n && NoIdentifier(rest) && forall i :: 0 <= i < |word| ==> IsIdentifierCharacter(word[i])
    ensures Identifier(word + rest, n) == word
    decreases |word|
  {
    if word == [] {
      assert word + rest == rest;
    } else {
      assert (word + rest)[1..] == word[1..] + rest;
      WordIs(word[1..], rest, n);
    }
  }

  lemma KeyIsRead(k: KeyForm, rest: string, n: nat)
    requires ProperKey(k) && (k.PlainKey? ==> NoIdentifier(rest)) && |rest| >= n
    ensures |KeyThen(k, rest)| > n && ReadKey(KeyThen(k, rest), n) == Key(KeyValue(k), rest)
    ensures Skip(KeyThen(k, rest)) == KeyThen(k, rest)
  {
    KeyReads(k, rest);
    FirmIsKept(KeyThen(k, rest));
    var s := KeyThen(k, rest);
    match k
    case PlainKey(word) =>
      hide Skip;
      assert s[0] == word[0] && s[1..] == word[1..] + rest;
      WordIs(word[1..], rest, n);
      assert [word[0]] + word[1..] == word && s[|word|..] == rest;
    case BracketKey(before, literal, after) =>
      var close := [']'] + rest;
      var inner := LiteralThen(literal, TriviaThen(after, close));
      hide TriviaThen, LiteralThen, ProperTrivia, ProperLiteral, ReadQuoted, Skip, Identifier;
      assert s[1..] == TriviaThen(before, inner);
      LiteralIsRead(literal, TriviaThen(after, close));
      TriviaIsSkipped(before, inner);
      TriviaIsSkipped(after, close);
      FirmIsKept(close);
      assert close[1..] == rest;
  }

  lemma {:induction false} TriviaGrows(t: Trivia, rest: string)
    ensures |TriviaThen(t, rest)| >= |rest|
    decreases |t|
  {
    if t != [] {
      TriviaGrows(t[1..], rest);
    }
  }

  lemma EntryUnfolds(e: EntryForm, follow: string)
    requires IsAlias(e)
    ensures EntryThen(e, follow) == TriviaThen(e.lead, KeyThen(e.left.value.key, TriviaThen(e.left.value.before,
      ['='] + TriviaThen(e.left.value.after, LiteralThen(e.value.literal, AfterValue(e, follow))))))
  {
    hide TriviaThen, KeyThen, LiteralThen;
    var value := LiteralThen(e.value.literal, AfterValue(e, follow));
    assert ValueThen(e.value, AfterValue(e, follow)) == value;
    assert BareThen(e, follow) == value;
    assert EntryThen(e, follow) == TriviaThen(e.lead, AssignmentThen(e.left.value, value));
  }

  lemma EntryParts(e: EntryForm)
    requires ProperEntry(e) && IsAlias(e)
    ensures ProperTrivia(e.lead) && ProperKey(e.left.value.key) && ProperTrivia(e.left.value.before)
    ensures ProperTrivia(e.left.value.after) && ProperLiteral(e.value.literal) && ProperTrivia(e.tail)
    ensures e.separator.Some? ==> e.separator.value == ',' || e.separator.value == ';'
  {
  }

  /** What the scanner sees of an entry: its key, its equals sign and its string. */
  lemma EntryIsSeen(e: EntryForm, follow: string, n: nat)
    requires ProperEntry(e) && IsAlias(e) && |follow| >= n
    ensures var key, a := e.left.value.key, e.left.value;
      var value := LiteralThen(e.value.literal, AfterValue(e, follow));
      var after := TriviaThen(a.after, value);
      var equals := TriviaThen(a.before, "=" + after);
      var s := KeyThen(key, equals);
      && Skip(EntryThen(e, follow)) == s && Skip(s) == s && |s| > n && ReadKey(s, n) == Key(KeyValue(key), equals)
      && Skip(equals) == "=" + after && |after| >= n
      && Skip(after) == value && value != []
      && ReadValue(value, n) == (Existing(LettersValue(e.value.literal.letters), true), AfterValue(e, follow))
      && |AfterValue(e, follow)| >= n
  {
    var a := e.left.value;
    var value := LiteralThen(e.value.literal, AfterValue(e, follow));
    var after := TriviaThen(a.after, value);
    var equals := TriviaThen(a.before, ['='] + after);
    EntryUnfolds(e, follow);
    EntryParts(e);
    AfterValueGrows(e, follow);
    LiteralIsRead(e.value.literal, AfterValue(e, follow));
    LiteralGrows(e.value.literal, AfterValue(e, follow));
    TriviaGrows(a.after, value);
    TriviaGrows(a.before, ['='] + after);
    TriviaNoIdentifier(a.before, ['='] + after);
    hide TriviaThen, KeyThen, LiteralThen, EntryThen, AfterValue, Skip, ReadKey, ProperEntry, ProperTrivia, ProperKey;
    hide ReadQuoted, LettersValue, KeyValue;
    assert ['='] + after == "=" + after;
    KeyIsRead(a.key, equals, n);
    TriviaIsSkipped(e.lead, KeyThen(a.key, equals));
    TriviaIsSkipped(a.before, ['='] + after);
    FirmIsKept(['='] + after);
    TriviaIsSkipped(a.after, value);
  }

  lemma AfterValueGrows(e: EntryForm, follow: string)
    ensures |AfterValue(e, follow)| >= |follow|
  {
    TriviaGrows(e.tail, SeparatorThen(e.separator, follow));
  }

  lemma {:induction false} LettersGrow(letters: seq<Letter>, rest: string)
    ensures |LettersThen(letters, rest)| >= |rest|
    decreases |letters|
  {
    if letters != [] {
      LettersGrow(letters[1..], rest);
    }
  }

  lemma LiteralGrows(l: Literal, rest: string)
    ensures |LiteralThen(l, rest)| >= |rest|
  {
    LettersGrow(l.letters, [l.quote] + rest);
    hide LettersThen;
  }

  /** Behind the value: the separator, and then the next entry or the closing brace. */
  lemma AfterIsSeen(e: EntryForm, follow: string, n: nat, wanted: string)
    requires ProperEntry(e) && |follow| >= n && (e.separator.None? ==> Text.Starts(follow, '}') && |follow| == n)
    ensures FindAlias(AfterValue(e, follow), n, wanted) == FindAlias(follow, n, wanted)
    ensures Overruns(AfterValue(e, follow), n, wanted) <==> Overruns(follow, n, wanted)
  {
    var next := SeparatorThen(e.separator, follow);
    assert ProperTrivia(e.tail);
    assert e.separator.Some? ==> e.separator.value == ',' || e.separator.value == ';';
    TriviaIsSkipped(e.tail, next);
    FirmIsKept(next);
    hide Skip, TriviaThen, ProperEntry, ProperTrivia;
    if e.separator.Some? {
      assert next[1..] == follow;
      SeparatorIsSkipped(e.separator.value, follow, n, wanted);
    }
    FindAliasSkips(AfterValue(e, follow), next, n, wanted);
    Reads.OverrunsSkips(AfterValue(e, follow), next, n, wanted);
  }

  lemma SeparatorIsSkipped(c: char, follow: string, n: nat, wanted: string)
    requires (c == ',' || c == ';') && |follow| >= n
    ensures FindAlias([c] + follow, n, wanted) == FindAlias(follow, n, wanted)
    ensures Overruns([c] + follow, n, wanted) <==> Overruns(follow, n, wanted)
  {
    SkipStep(c, follow);
    assert ([c] + follow)[1..] == follow;
  }

  /** The search in a table of aliases, in whatever form, finds the first entry for an alias and no other;
      it never looks for a value behind the end of the text. */
  lemma {:induction false} AliasesAreFound(entries: seq<EntryForm>, close: Trivia, rest: string, wanted: string)
    requires ProperEntries(entries) && AllAliases(entries) && ProperTrivia(close) && Closes(entries, close)
    ensures var s, n := EntriesThen(entries, TriviaThen(close, ['}'] + rest)), |['}'] + rest|;
      FindAlias(s, n, wanted) == Entered(Lookup(AliasesOf(entries), wanted)) && !Overruns(s, n, wanted)
    decreases |entries|
  {
    var brace := ['}'] + rest;
    var n := |brace|;
    if entries == [] {
      NoneIsFound(close, rest, wanted);
    } else {
      var e, more := entries[0], entries[1..];
      var follow := EntriesThen(more, TriviaThen(close, brace));
      assert more != [] ==> more[|more| - 1] == entries[|entries| - 1];
      if e.separator.None? {
        assert more == [] && close == [];
      }
      EntriesGrow(more, close, rest);
      EntryIsSeen(e, follow, n);
      AfterIsSeen(e, follow, n, wanted);
      AliasesAreFound(more, close, rest, wanted);
      assert EntriesThen(entries, TriviaThen(close, brace)) == EntryThen(e, follow);
      hide EntryThen, EntriesThen, TriviaThen, KeyThen, LiteralThen, AfterValue, Skip, ReadKey, ReadValue, FindAlias;
      hide Overruns, ProperEntry, ProperEntries, ProperTrivia;
      HeadIsFound(e, follow, n, wanted);
    }
  }

  lemma NoneIsFound(close: Trivia, rest: string, wanted: string)
    requires ProperTrivia(close)
    ensures var s, n := TriviaThen(close, ['}'] + rest), |['}'] + rest|;
      FindAlias(s, n, wanted).None? && !Overruns(s, n, wanted)
  {
    TriviaIsSkipped(close, ['}'] + rest);
    FirmIsKept(['}'] + rest);
    hide Skip, TriviaThen;
  }

  lemma {:induction false} EntriesGrow(entries: seq<EntryForm>, close: Trivia, rest: string)
    requires AllAliases(entries)
    ensures |EntriesThen(entries, TriviaThen(close, ['}'] + rest))| >= |['}'] + rest|
    decreases |entries|
  {
    if entries == [] {
      TriviaGrows(close, ['}'] + rest);
    } else {
      EntriesGrow(entries[1..], close, rest);
      EntryGrows(entries[0], EntriesThen(entries[1..], TriviaThen(close, ['}'] + rest)));
      hide EntryThen, TriviaThen;
    }
  }

  lemma EntryGrows(e: EntryForm, follow: string)
    requires IsAlias(e)
    ensures |EntryThen(e, follow)| >= |follow|
  {
    var a := e.left.value;
    var value := LiteralThen(e.value.literal, AfterValue(e, follow));
    var after := TriviaThen(a.after, value);
    EntryUnfolds(e, follow);
    AfterValueGrows(e, follow);
    LiteralGrows(e.value.literal, AfterValue(e, follow));
    TriviaGrows(a.after, value);
    TriviaGrows(a.before, ['='] + after);
    KeyGrows(a.key, TriviaThen(a.before, ['='] + after));
    TriviaGrows(e.lead, KeyThen(a.key, TriviaThen(a.before, ['='] + after)));
    hide EntryThen, TriviaThen, KeyThen, LiteralThen, AfterValue;
  }

  lemma KeyGrows(k: KeyForm, rest: string)
    ensures |KeyThen(k, rest)| >= |rest|
  {
    match k
    case PlainKey(word) =>
    case BracketKey(before, literal, after) =>
      TriviaGrows(after, [']'] + rest);
      LiteralGrows(literal, TriviaThen(after, [']'] + rest));
      TriviaGrows(before, LiteralThen(literal, TriviaThen(after, [']'] + rest)));
      hide TriviaThen, LiteralThen;
  }

  lemma HeadIsFound(e: EntryForm, follow: string, n: nat, wanted: string)
    requires ProperEntry(e) && IsAlias(e) && |follow| >= n
    requires FindAlias(AfterValue(e, follow), n, wanted) == FindAlias(follow, n, wanted)
    requires Overruns(AfterValue(e, follow), n, wanted) <==> Overruns(follow, n, wanted)
    ensures FindAlias(EntryThen(e, follow), n, wanted) ==
      if AliasOf(e).name == wanted then Some(Existing(AliasOf(e).path, true)) else FindAlias(follow, n, wanted)
    ensures Overruns(EntryThen(e, follow), n, wanted) <==> AliasOf(e).name != wanted && Overruns(follow, n, wanted)
  {
    var a := e.left.value;
    var value := LiteralThen(e.value.literal, AfterValue(e, follow));
    var after := TriviaThen(a.after, value);
    var equals := TriviaThen(a.before, "=" + after);
    var s := KeyThen(a.key, equals);
    EntryIsSeen(e, follow, n);
    hide EntryThen, TriviaThen, KeyThen, LiteralThen, AfterValue, Skip, ReadKey, ReadValue, FindAlias, Overruns;
    FindAliasStep(s, n, wanted, KeyValue(a.key), equals, after, Existing(LettersValue(e.value.literal.letters), true),
      AfterValue(e, follow));
    FindAliasSkips(EntryThen(e, follow), s, n, wanted);
    Reads.OverrunsStep(s, n, wanted, KeyValue(a.key), equals, after, value, AfterValue(e, follow));
    Reads.OverrunsSkips(EntryThen(e, follow), s, n, wanted);
  }

  // ----- the closing brace of a table -----

  lemma {:induction false} CloseIsBehindTrivia(s: string)
    ensures FindClose(Skip(s), 1) == FindClose(s, 1)
    decreases |s|
  {
    hide SkipComment, SkipQuoted;
    if s == [] {
    } else if IsSpace(s[0]) {
      CloseIsBehindTrivia(s[1..]);
    } else if CommentStarts(s) {
      var rest := SkipComment(s);
      assert Skip(s) == Skip(rest) && FindClose(s, 1) == FindClose(Skip(rest), 1);
    }
  }

  lemma TriviaKeepsClose(t: Trivia, rest: string)
    requires ProperTrivia(t)
    ensures FindClose(TriviaThen(t, rest), 1) == FindClose(rest, 1)
  {
    hide FindClose, Skip, TriviaThen, ProperTrivia;
    CloseIsBehindTrivia(TriviaThen(t, rest));
    CloseIsBehindTrivia(rest);
    TriviaIsSkipped(t, rest);
  }

  lemma LiteralKeepsClose(l: Literal, rest: string)
    requires ProperLiteral(l)
    ensures FindClose(LiteralThen(l, rest), 1) == FindClose(rest, 1)
  {
    LiteralIsRead(l, rest);
    hide LiteralThen, SkipQuoted, Skip;
  }

  lemma {:induction false} WordKeepsClose(word: string, rest: string)
    requires forall i :: 0 <= i < |word| ==> IsIdentifierCharacter(word[i])
    ensures FindClose(word + rest, 1) == FindClose(rest, 1)
    decreases |word|
  {
    if word == [] {
      assert word + rest == rest;
    } else {
      assert word + rest == [word[0]] + (word[1..] + rest);
      FindCloseStep(word[0], word[1..] + rest);
      hide FindClose;
      WordKeepsClose(word[1..], rest);
    }
  }

  lemma KeyKeepsClose(k: KeyForm, rest: string)
    requires ProperKey(k)
    ensures FindClose(KeyThen(k, rest), 1) == FindClose(rest, 1)
  {
    match k
    case PlainKey(word) => WordKeepsClose(word, rest);
    case BracketKey(before, literal, after) =>
      hide FindClose, TriviaThen, LiteralThen, ProperTrivia, ProperLiteral;
      var inner := LiteralThen(literal, TriviaThen(after, [']'] + rest));
      FindCloseStep('[', TriviaThen(before, inner));
      TriviaKeepsClose(before, inner);
      LiteralKeepsClose(literal, TriviaThen(after, [']'] + rest));
      TriviaKeepsClose(after, [']'] + rest);
      FindCloseStep(']', rest);
  }

  lemma EntryKeepsClose(e: EntryForm, follow: string)
    requires ProperEntry(e) && IsAlias(e)
    ensures FindClose(EntryThen(e, follow), 1) == FindClose(follow, 1)
  {
    var a := e.left.value;
    var next := SeparatorThen(e.separator, follow);
    var value := LiteralThen(e.value.literal, AfterValue(e, follow));
    var after := TriviaThen(a.after, value);
    var equals := TriviaThen(a.before, ['='] + after);
    EntryUnfolds(e, follow);
    EntryParts(e);
    hide FindClose, TriviaThen, KeyThen, LiteralThen, EntryThen, ProperTrivia, ProperKey, ProperEntry, ProperLiteral;
    TriviaKeepsClose(e.lead, KeyThen(a.key, equals));
    KeyKeepsClose(a.key, equals);
    TriviaKeepsClose(a.before, ['='] + after);
    FindCloseStep('=', after);
    TriviaKeepsClose(a.after, value);
    LiteralKeepsClose(e.value.literal, AfterValue(e, follow));
    TriviaKeepsClose(e.tail, next);
    if e.separator.Some? {
      FindCloseStep(e.separator.value, follow);
    }
  }

  /** The brace that closes a table of aliases is found, whatever stands in strings and comments. */
  lemma {:induction false} CloseIsFound(entries: seq<EntryForm>, close: Trivia, rest: string)
    requires ProperEntries(entries) && AllAliases(entries) && ProperTrivia(close)
    ensures FindClose(EntriesThen(entries, TriviaThen(close, ['}'] + rest)), 1) == Some(['}'] + rest)
    decreases |entries|
  {
    if entries == [] {
      TriviaKeepsClose(close, ['}'] + rest);
    } else {
      EntryKeepsClose(entries[0], EntriesThen(entries[1..], TriviaThen(close, ['}'] + rest)));
      hide FindClose, EntryThen, TriviaThen;
      CloseIsFound(entries[1..], close, rest);
    }
  }

  // ----- whole configurations -----

  /** The trivia between the tokens of: return { luau = { aliases = {, what stands in the table, and
      everything behind its closing brace, which may be anything. */
  datatype ConfigForm = ConfigForm(gaps: seq<Trivia>, entries: seq<EntryForm>, close: Trivia, rest: string)

  predicate ProperConfig(c: ConfigForm) {
    && |c.gaps| == 8 && (forall i :: 0 <= i < 8 ==> ProperTrivia(c.gaps[i]))
    && ProperEntries(c.entries) && AllAliases(c.entries) && ProperTrivia(c.close) && Closes(c.entries, c.close)
  }

  /** The alias table from its opening brace on, and from its closing brace on. */
  function TablePlace(c: ConfigForm): (p: Place) {
    Place(['{'] + EntriesThen(c.entries, TriviaThen(c.close, ['}'] + c.rest)), ['}'] + c.rest)
  }

  function AliasesText(c: ConfigForm): (r: string)
    requires |c.gaps| == 8
  {
    "aliases" + TriviaThen(c.gaps[6], ['='] + TriviaThen(c.gaps[7], TablePlace(c).open))
  }

  function LuauText(c: ConfigForm): (r: string)
    requires |c.gaps| == 8
  {
    "luau" + TriviaThen(c.gaps[3], ['='] + TriviaThen(c.gaps[4], ['{'] + TriviaThen(c.gaps[5], AliasesText(c))))
  }

  function Written(c: ConfigForm): (r: string)
    requires |c.gaps| == 8
  {
    TriviaThen(c.gaps[0], "return" + TriviaThen(c.gaps[1], ['{'] + TriviaThen(c.gaps[2], LuauText(c))))
  }

  lemma TableIsBehindTrivia(t: Trivia, rest: string)
    requires ProperTrivia(t)
    ensures FindTable(TriviaThen(t, rest)) == FindTable(rest)
  {
    TriviaIsSkipped(t, rest);
    hide Skip, FindTable, TriviaThen;
    FindTableSkips(TriviaThen(t, rest), rest);
  }

  lemma TableIsBehindWord(word: string, t: Trivia, c: char, rest: string)
    requires IsWord(word) && word != "aliases" && ProperTrivia(t) && (c == '=' || c == '{')
    ensures FindTable(word + TriviaThen(t, [c] + rest)) == FindTable(rest)
  {
    TriviaNoIdentifier(t, [c] + rest);
    TriviaGrows(t, [c] + rest);
    hide FindTable, TriviaThen, ProperTrivia;
    FindTableWord(word, TriviaThen(t, [c] + rest));
    TableIsBehindTrivia(t, [c] + rest);
    FindTableOther(c, rest);
  }

  lemma BodyIsFound(before: Trivia, after: Trivia, open: string)
    requires ProperTrivia(before) && ProperTrivia(after) && Text.Starts(open, '{')
    ensures TableBody(TriviaThen(before, ['='] + TriviaThen(after, open))) == Some(open)
  {
    var equals := ['='] + TriviaThen(after, open);
    TriviaIsSkipped(before, equals);
    FirmIsKept(equals);
    TriviaIsSkipped(after, open);
    FirmIsKept(open);
    hide Skip, TriviaThen, ProperTrivia;
    assert equals[1..] == TriviaThen(after, open);
  }

  lemma AliasesTextIsFound(c: ConfigForm)
    requires ProperConfig(c)
    ensures FindTable(AliasesText(c)) == Some(TablePlace(c))
  {
    var open := TablePlace(c).open;
    CloseIsFound(c.entries, c.close, c.rest);
    assert open[1..] == EntriesThen(c.entries, TriviaThen(c.close, ['}'] + c.rest));
    var equals := ['='] + TriviaThen(c.gaps[7], open);
    BodyIsFound(c.gaps[6], c.gaps[7], open);
    TriviaNoIdentifier(c.gaps[6], equals);
    TriviaGrows(c.gaps[6], equals);
    hide FindTable, TriviaThen, EntriesThen, ProperEntries, ProperTrivia, FindClose, TableBody;
    FindTableAliases(TriviaThen(c.gaps[6], equals), open);
  }

  lemma LuauTextPasses(c: ConfigForm)
    requires ProperConfig(c)
    ensures FindTable(LuauText(c)) == FindTable(AliasesText(c))
  {
    hide FindTable, TriviaThen, ProperEntries, ProperTrivia, AliasesText, TablePlace;
    var inner := TriviaThen(c.gaps[5], AliasesText(c));
    TableIsBehindTrivia(c.gaps[5], AliasesText(c));
    FindTableOther('{', inner);
    TableIsBehindTrivia(c.gaps[4], ['{'] + inner);
    TableIsBehindWord("luau", c.gaps[3], '=', TriviaThen(c.gaps[4], ['{'] + inner));
  }

  /** The alias table of a configuration in this form is found at its braces. */
  lemma WrittenTableIsFound(c: ConfigForm)
    requires ProperConfig(c)
    ensures FindTable(Written(c)) == Some(TablePlace(c))
  {
    AliasesTextIsFound(c);
    LuauTextPasses(c);
    hide FindTable, TriviaThen, ProperTrivia, LuauText, TablePlace;
    ReturnPasses(c.gaps[0], c.gaps[1], c.gaps[2], LuauText(c));
  }

  lemma ReturnPasses(lead: Trivia, before: Trivia, after: Trivia, rest: string)
    requires ProperTrivia(lead) && ProperTrivia(before) && ProperTrivia(after)
    ensures FindTable(TriviaThen(lead, "return" + TriviaThen(before, ['{'] + TriviaThen(after, rest)))) ==
      FindTable(rest)
  {
    hide FindTable, TriviaThen, ProperTrivia;
    var inner := TriviaThen(after, rest);
    TableIsBehindTrivia(after, rest);
    TableIsBehindWord("return", before, '{', inner);
    TableIsBehindTrivia(lead, "return" + TriviaThen(before, ['{'] + inner));
  }

  /** In whatever form the configuration is written, scanning it finds every alias with its path and no
      other, and stays inside the text. */
  lemma WrittenIsRead(c: ConfigForm, wanted: string)
    requires ProperConfig(c)
    ensures var p := FindTable(Written(c));
      && p.Some? && p.value.open != []
      && FindAlias(p.value.open[1..], |p.value.close|, wanted) == Entered(Lookup(AliasesOf(c.entries), wanted))
      && !Overruns(p.value.open[1..], |p.value.close|, wanted)
  {
    WrittenTableIsFound(c);
    AliasesAreFound(c.entries, c.close, c.rest, wanted);
    assert TablePlace(c).open[1..] == EntriesThen(c.entries, TriviaThen(c.close, ['}'] + c.rest));
    hide FindTable, FindAlias, Overruns, EntriesThen, TriviaThen;
  }

  /** An update of a configuration in any form is refused exactly when an alias is unsafe or bound to another
      path; when every alias is bound already it changes nothing. */
  lemma WrittenUpdateIsRefusedIff(safePath: string -> bool, c: ConfigForm, aliases: seq<Alias>)
    requires ProperConfig(c) && aliases != []
    ensures UpdateAliases(safePath, Written(c), aliases) == Refused <==>
      !AllCompatible(safePath, AliasesOf(c.entries), aliases)
    ensures AllCompatible(safePath, AliasesOf(c.entries), aliases) && Fresh(AliasesOf(c.entries), aliases) == [] ==>
      UpdateAliases(safePath, Written(c), aliases) == Updated(Written(c), false)
  {
    var known := AliasesOf(c.entries);
    WrittenTableIsFound(c);
    hide FindTable, Insert, Additions, Acceptable, AllCompatible, EntriesThen, TriviaThen, ProperEntries;
    WrittenAcceptable(safePath, c, aliases);
    if AllCompatible(safePath, known, aliases) {
      WrittenAdditions(safePath, c, aliases);
    }
  }

  lemma WrittenCheck(safePath: string -> bool, c: ConfigForm, a: Alias)
    requires ProperConfig(c)
    ensures var check := CheckAlias(safePath, TablePlace(c), a);
      && (check.Present? || check.New? <==> Compatible(safePath, AliasesOf(c.entries), a))
      && (Compatible(safePath, AliasesOf(c.entries), a) ==>
            (check.New? <==> Lookup(AliasesOf(c.entries), a.name).None?))
  {
    WrittenTableIsFound(c);
    WrittenIsRead(c, a.name);
    hide FindTable, FindAlias, Lookup, Overruns, ProperConfig, AliasesOf, IsSafeName;
  }

  lemma WrittenAcceptable(safePath: string -> bool, c: ConfigForm, aliases: seq<Alias>)
    requires ProperConfig(c)
    ensures Acceptable(safePath, TablePlace(c), aliases) <==> AllCompatible(safePath, AliasesOf(c.entries), aliases)
  {
    hide CheckAlias, Compatible, ProperConfig, AliasesOf, TablePlace;
    TableOpens(c);
    forall i | 0 <= i < |aliases|
      ensures var check := CheckAlias(safePath, TablePlace(c), aliases[i]);
        check.Present? || check.New? <==> Compatible(safePath, AliasesOf(c.entries), aliases[i])
    {
      WrittenCheck(safePath, c, aliases[i]);
    }
  }

  lemma TableOpens(c: ConfigForm)
    ensures TablePlace(c).open != []
    ensures ProperConfig(c) ==> AllAliases(c.entries) && |c.gaps| == 8
  {
  }

  lemma {:induction false} WrittenAdditions(safePath: string -> bool, c: ConfigForm, aliases: seq<Alias>)
    requires ProperConfig(c) && AllCompatible(safePath, AliasesOf(c.entries), aliases)
    ensures Additions(safePath, TablePlace(c), aliases) == Fresh(AliasesOf(c.entries), aliases)
    decreases |aliases|
  {
    hide CheckAlias, Compatible, ProperConfig, AliasesOf, TablePlace, Lookup;
    TableOpens(c);
    if aliases != [] {
      WrittenAdditions(safePath, c, aliases[..|aliases| - 1]);
      WrittenCheck(safePath, c, aliases[|aliases| - 1]);
    }
  }

  // ----- every text is a beginning and what follows it -----

  lemma {:induction false} TriviaSplits(t: Trivia, rest: string)
    ensures TriviaThen(t, rest) == TriviaThen(t, []) + rest
    decreases |t|
  {
    if t == [] {
      assert [] + rest == rest;
    } else {
      TriviaSplits(t[1..], rest);
      hide PieceText;
    }
  }

  lemma {:induction false} LettersSplit(letters: seq<Letter>, rest: string)
    ensures LettersThen(letters, rest) == LettersThen(letters, []) + rest
    decreases |letters|
  {
    if letters == [] {
      assert [] + rest == rest;
    } else {
      LettersSplit(letters[1..], rest);
    }
  }

  lemma LiteralSplits(l: Literal, rest: string)
    ensures LiteralThen(l, rest) == LiteralThen(l, []) + rest
  {
    LettersSplit(l.letters, [l.quote] + rest);
    LettersSplit(l.letters, [l.quote] + []);
    hide LettersThen;
  }

  lemma KeySplits(k: KeyForm, rest: string)
    ensures KeyThen(k, rest) == KeyThen(k, []) + rest
  {
    match k
    case PlainKey(word) => assert word + [] == word;
    case BracketKey(before, literal, after) =>
      hide TriviaThen, LiteralThen;
      var close, plainClose := [']'] + rest, [']'] + [];
      GapSplits(after, close, plainClose, rest);
      LiteralGapSplits(literal, TriviaThen(after, close), TriviaThen(after, plainClose), rest);
      GapSplits(before, LiteralThen(literal, TriviaThen(after, close)),
        LiteralThen(literal, TriviaThen(after, plainClose)), rest);
      Associates(['['], TriviaThen(before, LiteralThen(literal, TriviaThen(after, plainClose))), rest);
  }

  lemma Associates(a: string, b: string, c: string)
    ensures a + (b + c) == a + b + c
  {
  }

  lemma GapSplits(t: Trivia, text: string, plain: string, rest: string)
    requires text == plain + rest
    ensures TriviaThen(t, text) == TriviaThen(t, plain) + rest
  {
    TriviaSplits(t, text);
    TriviaSplits(t, plain);
    hide TriviaThen;
    Associates(TriviaThen(t, []), plain, rest);
  }

  lemma LiteralGapSplits(l: Literal, text: string, plain: string, rest: string)
    requires text == plain + rest
    ensures LiteralThen(l, text) == LiteralThen(l, plain) + rest
  {
    LiteralSplits(l, text);
    LiteralSplits(l, plain);
    hide LiteralThen;
    Associates(LiteralThen(l, []), plain, rest);
  }

  lemma KeyGapSplits(k: KeyForm, text: string, plain: string, rest: string)
    requires text == plain + rest
    ensures KeyThen(k, text) == KeyThen(k, plain) + rest
  {
    KeySplits(k, text);
    KeySplits(k, plain);
    hide KeyThen;
    Associates(KeyThen(k, []), plain, rest);
  }

  lemma EntrySplits(e: EntryForm, rest: string)
    requires IsAlias(e)
    ensures EntryThen(e, rest) == EntryThen(e, []) + rest
  {
    var a := e.left.value;
    var next, plainNext := SeparatorThen(e.separator, rest), SeparatorThen(e.separator, []);
    assert next == plainNext + rest;
    EntryUnfolds(e, rest);
    EntryUnfolds(e, []);
    hide TriviaThen, KeyThen, LiteralThen, EntryThen, SeparatorThen;
    GapSplits(e.tail, next, plainNext, rest);
    var tail, plain := AfterValue(e, rest), AfterValue(e, []);
    LiteralGapSplits(e.value.literal, tail, plain, rest);
    var value, plainValue := LiteralThen(e.value.literal, tail), LiteralThen(e.value.literal, plain);
    GapSplits(a.after, value, plainValue, rest);
    var equals, plainEquals := ['='] + TriviaThen(a.after, value), ['='] + TriviaThen(a.after, plainValue);
    Associates(['='], TriviaThen(a.after, plainValue), rest);
    hide AfterValue;
    GapSplits(a.before, equals, plainEquals, rest);
    KeyGapSplits(a.key, TriviaThen(a.before, equals), TriviaThen(a.before, plainEquals), rest);
    GapSplits(e.lead, KeyThen(a.key, TriviaThen(a.before, equals)),
      KeyThen(a.key, TriviaThen(a.before, plainEquals)), rest);
  }

  lemma {:induction false} EntriesSplit(entries: seq<EntryForm>, rest: string)
    requires AllAliases(entries)
    ensures EntriesThen(entries, rest) == EntriesThen(entries, []) + rest
    decreases |entries|
  {
    hide EntryThen;
    if entries == [] {
      assert [] + rest == rest;
    } else {
      EntriesSplit(entries[1..], rest);
      EntrySplits(entries[0], EntriesThen(entries[1..], rest));
      EntrySplits(entries[0], EntriesThen(entries[1..], []));
    }
  }

  lemma {:induction false} EntriesBoth(a: seq<EntryForm>, b: seq<EntryForm>, rest: string)
    ensures EntriesThen(a + b, rest) == EntriesThen(a, EntriesThen(b, rest))
    decreases |a|
  {
    hide EntryThen;
    if a == [] {
      assert a + b == b;
    } else {
      assert (a + b)[1..] == a[1..] + b;
      EntriesBoth(a[1..], b, rest);
    }
  }

  /** What stands before the table's entries. */
  function Heading(c: ConfigForm): (r: string)
    requires |c.gaps| == 8
  {
    TriviaThen(c.gaps[0], []) + "return" + TriviaThen(c.gaps[1], []) + "{" + TriviaThen(c.gaps[2], []) + "luau" +
    TriviaThen(c.gaps[3], []) + "=" + TriviaThen(c.gaps[4], []) + "{" + TriviaThen(c.gaps[5], []) + "aliases" +
    TriviaThen(c.gaps[6], []) + "=" + TriviaThen(c.gaps[7], [])
  }

  lemma WrittenSplits(c: ConfigForm)
    requires |c.gaps| == 8
    ensures Written(c) == Heading(c) + TablePlace(c).open
  {
    hide TriviaThen, TablePlace;
    var open := TablePlace(c).open;
    TriviaSplits(c.gaps[7], open);
    TriviaSplits(c.gaps[6], ['='] + TriviaThen(c.gaps[7], open));
    TriviaSplits(c.gaps[5], AliasesText(c));
    TriviaSplits(c.gaps[4], ['{'] + TriviaThen(c.gaps[5], AliasesText(c)));
    TriviaSplits(c.gaps[3], ['='] + TriviaThen(c.gaps[4], ['{'] + TriviaThen(c.gaps[5], AliasesText(c))));
    TriviaSplits(c.gaps[2], LuauText(c));
    TriviaSplits(c.gaps[1], ['{'] + TriviaThen(c.gaps[2], LuauText(c)));
    TriviaSplits(c.gaps[0], "return" + TriviaThen(c.gaps[1], ['{'] + TriviaThen(c.gaps[2], LuauText(c))));
  }

  // ----- adding to a tidy table -----

  function Blanks(k: nat): (t: Trivia)
    ensures |t| == k && forall i :: 0 <= i < k ==> t[i] == Blank(' ')
  {
    seq(k, _ => Blank(' '))
  }

  /** A line break and k blanks. */
  function NewLine(k: nat): (t: Trivia) {
    [Blank('\n')] + Blanks(k)
  }

  lemma {:induction false} BlanksText(k: nat, rest: string)
    ensures TriviaThen(Blanks(k), rest) == Spaces(k) + rest
  {
    if k == 0 {
      assert Spaces(0) + rest == rest;
    } else {
      assert Blanks(k)[1..] == Blanks(k - 1);
      BlanksText(k - 1, rest);
      assert Spaces(k) + rest == [' '] + (Spaces(k - 1) + rest);
    }
  }

  lemma NewLineText(k: nat, rest: string)
    ensures TriviaThen(NewLine(k), rest) == "\n" + (Spaces(k) + rest) && ProperTrivia(NewLine(k))
  {
    assert NewLine(k)[1..] == Blanks(k);
    BlanksText(k, rest);
  }

  /** The escapes the program writes. */
  function LettersOf(s: string): (r: seq<Letter>) {
    if s == [] then []
    else [if s[0] == '\\' || s[0] == '"' then Escaped(s[0]) else Plain(s[0])] + LettersOf(s[1..])
  }

  lemma {:induction false} LettersOfText(s: string, rest: string)
    ensures LettersThen(LettersOf(s), rest) == Escape(s) + rest && LettersValue(LettersOf(s)) == s
    ensures forall i :: 0 <= i < |LettersOf(s)| && LettersOf(s)[i].Plain? ==>
      LettersOf(s)[i].c != '"' && LettersOf(s)[i].c != '\\'
    decreases |s|
  {
    if s == [] {
      assert Escape(s) + rest == rest;
    } else {
      LettersOfText(s[1..], rest);
      EscapeHead(s[0], s[1..]);
      assert s == [s[0]] + s[1..];
      hide Escape;
      assert LettersOf(s)[1..] == LettersOf(s[1..]);
      assert Escape(s) + rest == EscapeChar(s[0]) + (Escape(s[1..]) + rest);
    }
  }

  function InDoubleQuotes(s: string): (l: Literal) {
    Literal('"', LettersOf(s))
  }

  lemma DoubleQuotesText(s: string, rest: string)
    ensures LiteralThen(InDoubleQuotes(s), rest) == InQuotes(s) + rest && ProperLiteral(InDoubleQuotes(s))
  {
    LettersOfText(s, ['"'] + rest);
    hide LettersOf, LettersThen, Escape;
    assert InQuotes(s) + rest == ['"'] + (Escape(s) + (['"'] + rest));
  }

  /** The entry written for an alias, on a line of its own. */
  function NewEntry(k: nat, a: Alias): (e: EntryForm)
    ensures IsAlias(e)
  {
    EntryForm(NewLine(k + 4),
      Some(Assignment(BracketKey([], InDoubleQuotes(a.name), []), [Blank(' ')], [Blank(' ')])),
      StringForm(InDoubleQuotes(a.path)), [], Some(','))
  }

  lemma NewKeyText(name: string, rest: string)
    ensures KeyThen(BracketKey([], InDoubleQuotes(name), []), rest) == "[" + (InQuotes(name) + ("]" + rest))
  {
    DoubleQuotesText(name, [']'] + rest);
    TriviaNone([']'] + rest);
    TriviaNone(LiteralThen(InDoubleQuotes(name), [']'] + rest));
    hide InDoubleQuotes, InQuotes, TriviaThen, LiteralThen;
  }

  lemma NewEntryText(k: nat, a: Alias, rest: string)
    ensures EntryThen(NewEntry(k, a), rest) == "\n" + (Spaces(k + 4) + (Entry(a) + rest))
    ensures ProperEntry(NewEntry(k, a)) && AliasOf(NewEntry(k, a)) == a
  {
    NewEntryIsProper(k, a);
    var e := NewEntry(k, a);
    EntryUnfolds(e, rest);
    TriviaNone([','] + rest);
    assert AfterValue(e, rest) == "," + rest;
    DoubleQuotesText(a.path, "," + rest);
    var value := InQuotes(a.path) + ("," + rest);
    var equals := ['='] + (" " + value);
    OneBlank(value);
    OneBlank(equals);
    NewKeyText(a.name, " " + equals);
    var key := "[" + (InQuotes(a.name) + ("]" + (" " + equals)));
    NewLineText(k + 4, key);
    hide InDoubleQuotes, InQuotes, TriviaThen, LiteralThen, KeyThen, EntryThen, Spaces, NewLine, ProperEntry;
    hide AfterValue;
    ConfigRoundTrip.EntryParts(a, rest);
    KeyIsEntry(a, rest, key);
  }

  lemma KeyIsEntry(a: Alias, rest: string, key: string)
    requires key == "[" + (InQuotes(a.name) + ("]" + (" " + (['='] + (" " + (InQuotes(a.path) + ("," + rest)))))))
    ensures key == Entry(a) + rest
  {
    ConfigRoundTrip.EntryParts(a, rest);
    hide InQuotes, Entry;
    var value := InQuotes(a.path) + ("," + rest);
    assert "] = " + value == "]" + (" " + (['='] + (" " + value)));
  }

  lemma NewEntryIsProper(k: nat, a: Alias)
    ensures ProperEntry(NewEntry(k, a)) && AliasOf(NewEntry(k, a)) == a
  {
    NewLineText(k + 4, []);
    DoubleQuotesText(a.name, []);
    DoubleQuotesText(a.path, []);
    LettersOfText(a.name, []);
    LettersOfText(a.path, []);
    hide NewLine, LettersOf, ProperLiteral, InQuotes, Escape;
  }

  lemma OneBlank(rest: string)
    ensures TriviaThen([Blank(' ')], rest) == " " + rest
  {
    assert [Blank(' ')][1..] == [];
  }

  function NewEntries(k: nat, aliases: seq<Alias>): (r: seq<EntryForm>)
    ensures AllAliases(r)
  {
    if aliases == [] then [] else [NewEntry(k, aliases[0])] + NewEntries(k, aliases[1..])
  }

  lemma {:induction false} NewEntriesText(k: nat, aliases: seq<Alias>, rest: string)
    ensures EntriesThen(NewEntries(k, aliases), "\n" + rest) ==
      "\n" + (Lines(Spaces(k) + "    ", "\n", aliases) + rest)
    ensures ProperEntries(NewEntries(k, aliases)) && AliasesOf(NewEntries(k, aliases)) == aliases
    ensures aliases != [] ==>
      NewEntries(k, aliases) != [] && NewEntries(k, aliases)[|NewEntries(k, aliases)| - 1].separator == Some(',')
    decreases |aliases|
  {
    hide EntryThen, Entry, Spaces, NewEntry, ProperEntry;
    if aliases == [] {
      assert Lines(Spaces(k) + "    ", "\n", aliases) + rest == rest;
    } else {
      var a, more := aliases[0], aliases[1..];
      NewEntriesText(k, more, rest);
      NewEntryText(k, a, EntriesThen(NewEntries(k, more), "\n" + rest));
      FourMore(k);
      assert NewEntries(k, aliases)[1..] == NewEntries(k, more) && aliases == [a] + more;
      LastIsSeparated(k, a);
      LinesHead(Spaces(k) + "    ", a, more, rest);
      hide Lines;
    }
  }

  lemma LinesHead(indent: string, a: Alias, more: seq<Alias>, rest: string)
    ensures "\n" + (indent + (Entry(a) + ("\n" + (Lines(indent, "\n", more) + rest)))) ==
      "\n" + (Lines(indent, "\n", [a] + more) + rest)
  {
    hide Entry;
    LinesAppend(indent, "\n", [a], more);
    assert [a][..0] == [];
    var line := indent + Entry(a) + "\n";
    assert Lines(indent, "\n", [a]) == line;
    hide Lines;
    assert indent + (Entry(a) + ("\n" + (Lines(indent, "\n", more) + rest))) == line + Lines(indent, "\n", more) + rest;
  }

  lemma LastIsSeparated(k: nat, a: Alias)
    ensures NewEntry(k, a).separator == Some(',')
  {
  }

  lemma FourMore(k: nat)
    ensures Spaces(k + 4) == Spaces(k) + "    "
  {
    assert Spaces(4) == "    ";
    SpacesAdd(k, 4);
  }

  /** The last entry ends in a comma, and the closing brace stands behind k blanks on the next line. */
  predicate Tidy(c: ConfigForm, k: nat) {
    c.entries != [] && c.entries[|c.entries| - 1].separator == Some(',') && c.close == NewLine(k)
  }

  function WithAliases(c: ConfigForm, k: nat, aliases: seq<Alias>): (r: ConfigForm) {
    c.(entries := c.entries + NewEntries(k, aliases))
  }

  lemma {:induction false} AliasesBoth(a: seq<EntryForm>, b: seq<EntryForm>)
    requires AllAliases(a) && AllAliases(b)
    ensures AllAliases(a + b) && AliasesOf(a + b) == AliasesOf(a) + AliasesOf(b)
    decreases |a|
  {
    if a == [] {
      assert a + b == b;
    } else {
      assert (a + b)[1..] == a[1..] + b;
      AliasesBoth(a[1..], b);
    }
  }

  lemma {:induction false} ProperBoth(a: seq<EntryForm>, b: seq<EntryForm>)
    requires ProperEntries(a) && ProperEntries(b) && (a != [] ==> a[|a| - 1].separator.Some?)
    ensures ProperEntries(a + b)
    decreases |a|
  {
    hide ProperEntry;
    if a == [] {
      assert a + b == b;
    } else {
      assert (a + b)[1..] == a[1..] + b;
      ProperBoth(a[1..], b);
    }
  }

  lemma OtherEntries(c: ConfigForm, entries: seq<EntryForm>)
    requires ProperConfig(c) && ProperEntries(entries) && AllAliases(entries)
    requires entries != [] && entries[|entries| - 1].separator.Some?
    ensures ProperConfig(c.(entries := entries))
  {
    hide ProperEntries, ProperTrivia;
  }

  lemma WithAliasesIsProper(c: ConfigForm, k: nat, aliases: seq<Alias>)
    requires ProperConfig(c) && Tidy(c, k)
    ensures var d := WithAliases(c, k, aliases);
      ProperConfig(d) && Tidy(d, k) && AliasesOf(d.entries) == AliasesOf(c.entries) + aliases
  {
    var news := NewEntries(k, aliases);
    NewEntriesText(k, aliases, []);
    ProperBoth(c.entries, news);
    AliasesBoth(c.entries, news);
    LastIsComma(c.entries, k, aliases);
    hide ProperEntries, AliasesOf, NewEntries, ProperTrivia, NewLine, AllAliases, EntriesThen;
    OtherEntries(c, c.entries + news);
    hide ProperConfig;
  }

  lemma LastIsComma(entries: seq<EntryForm>, k: nat, aliases: seq<Alias>)
    requires entries != [] && entries[|entries| - 1].separator == Some(',')
    ensures var all := entries + NewEntries(k, aliases); all != [] && all[|all| - 1].separator == Some(',')
  {
    NewEntriesText(k, aliases, []);
    hide EntriesThen, ProperEntries;
    if aliases == [] {
      NoNewEntries(k);
    }
  }

  lemma NoNewEntries(k: nat)
    ensures NewEntries(k, []) == []
  {
  }

  /** A tidy configuration up to the line of its closing brace. */
  function UpToClose(c: ConfigForm): (r: string)
    requires |c.gaps| == 8
  {
    Heading(c) + "{" + EntriesThen(c.entries, []) + "\n"
  }

  lemma TidyText(c: ConfigForm, k: nat)
    requires ProperConfig(c) && Tidy(c, k)
    ensures Written(c) == UpToClose(c) + Spaces(k) + (['}'] + c.rest)
  {
    hide Heading, EntriesThen, TriviaThen, Spaces, NewLine, ProperEntries, ProperTrivia;
    var brace := ['}'] + c.rest;
    NewLineText(k, brace);
    EntriesSplit(c.entries, "\n" + (Spaces(k) + brace));
    WrittenSplits(c);
    FivePieces(Heading(c), "{", EntriesThen(c.entries, []), "\n", Spaces(k), brace);
  }

  lemma FivePieces(a: string, b: string, c: string, d: string, e: string, f: string)
    ensures a + (b + (c + (d + (e + f)))) == a + b + c + d + e + f
    ensures b + (c + (d + (e + f))) == b + c + d + e + f
  {
  }

  predicate EndsInComma(s: string) {
    s != [] && s[|s| - 1] == ','
  }

  lemma EndsBehind(a: string, b: string)
    requires EndsInComma(b)
    ensures EndsInComma(a + b)
  {
  }

  lemma {:induction false} EntriesEndInComma(entries: seq<EntryForm>)
    requires AllAliases(entries) && entries != [] && entries[|entries| - 1].separator == Some(',')
    ensures EndsInComma(EntriesThen(entries, []))
    decreases |entries|
  {
    hide EntryThen, EndsInComma;
    var e, more := entries[0], entries[1..];
    if more == [] {
      EntryEndsInComma(e);
    } else {
      assert more[|more| - 1] == entries[|entries| - 1];
      EntriesEndInComma(more);
      EntrySplits(e, EntriesThen(more, []));
      EndsBehind(EntryThen(e, []), EntriesThen(more, []));
    }
  }

  lemma EntryEndsInComma(e: EntryForm)
    requires IsAlias(e) && e.separator == Some(',')
    ensures EndsInComma(EntryThen(e, []))
  {
    var a := e.left.value;
    EntryUnfolds(e, []);
    assert EndsInComma([','] + []);
    hide TriviaThen, KeyThen, LiteralThen, EntryThen, EndsInComma;
    TriviaEnds(e.tail, [','] + []);
    var tail := AfterValue(e, []);
    LiteralSplits(e.value.literal, tail);
    EndsBehind(LiteralThen(e.value.literal, []), tail);
    var value := LiteralThen(e.value.literal, tail);
    TriviaEnds(a.after, value);
    EndsBehind(['='], TriviaThen(a.after, value));
    var equals := ['='] + TriviaThen(a.after, value);
    TriviaEnds(a.before, equals);
    KeySplits(a.key, TriviaThen(a.before, equals));
    EndsBehind(KeyThen(a.key, []), TriviaThen(a.before, equals));
    TriviaEnds(e.lead, KeyThen(a.key, TriviaThen(a.before, equals)));
  }

  lemma TriviaEnds(t: Trivia, rest: string)
    requires EndsInComma(rest)
    ensures EndsInComma(TriviaThen(t, rest))
  {
    TriviaSplits(t, rest);
    EndsBehind(TriviaThen(t, []), rest);
    hide TriviaThen, EndsInComma;
  }

  lemma LineEndsInComma(heading: string, entries: string)
    requires EndsInComma(entries)
    ensures var front := heading + "{" + entries + "\n";
      |front| >= |heading| + 3 && front[|front| - 1] == '\n' && front[|front| - 2] == ','
  {
  }

  lemma UpToCloseEnds(c: ConfigForm, k: nat)
    requires ProperConfig(c) && Tidy(c, k)
    ensures var front := UpToClose(c);
      |front| >= |Heading(c)| + 3 && front[|front| - 1] == '\n' && front[|front| - 2] == ','
  {
    EntriesEndInComma(c.entries);
    hide Heading, EntriesThen, EndsInComma, ProperConfig;
    LineEndsInComma(Heading(c), EntriesThen(c.entries, []));
  }

  lemma TidyPlace(c: ConfigForm, k: nat)
    requires ProperConfig(c) && Tidy(c, k)
    ensures |Written(c)| - |TablePlace(c).open| == |Heading(c)|
    ensures |Written(c)| - |TablePlace(c).close| == |UpToClose(c)| + k
  {
    TidyText(c, k);
    WrittenSplits(c);
    hide Written, Spaces, Heading, UpToClose;
  }

  /** Adding entries to a tidy table gives the configuration with these entries behind the others, in which
      everything that was written by hand is as it was. */
  lemma TidyInsert(c: ConfigForm, k: nat, additions: seq<Alias>)
    requires ProperConfig(c) && Tidy(c, k) && NoReturn(Written(c))
    ensures var text, place := Written(c), TablePlace(c);
      && 0 <= |text| - |place.open| < |text| - |place.close| < |text|
      && Insert(text, |text| - |place.open|, |text| - |place.close|, additions) ==
         Written(WithAliases(c, k, additions))
  {
    hide Written, Insert, Lines, Spaces, TablePlace, ProperConfig, Heading, NoReturn, UpToClose, WithAliases, Tidy;
    TableOpens(c);
    TidyPlace(c, k);
    UpToCloseEnds(c, k);
    WithAliasesText(c, k, additions);
    TidyText(c, k);
    InsertAt(UpToClose(c), |Heading(c)|, true, k, ['}'] + c.rest, Written(c), additions);
    PlaceCloses(c);
  }

  lemma PlaceCloses(c: ConfigForm)
    ensures |TablePlace(c).close| > 0
  {
    hide EntriesThen, TriviaThen;
  }

  lemma WithAliasesText(c: ConfigForm, k: nat, additions: seq<Alias>)
    requires ProperConfig(c) && Tidy(c, k)
    ensures |WithAliases(c, k, additions).gaps| == 8
    ensures Written(WithAliases(c, k, additions)) ==
      UpToClose(c) + Lines(Spaces(k) + "    ", "\n", additions) + (Spaces(k) + (['}'] + c.rest))
  {
    var d := WithAliases(c, k, additions);
    var brace := ['}'] + c.rest;
    var lines := Lines(Spaces(k) + "    ", "\n", additions);
    WrittenSplits(d);
    NewLineText(k, brace);
    EntriesBoth(c.entries, NewEntries(k, additions), "\n" + (Spaces(k) + brace));
    NewEntriesText(k, additions, Spaces(k) + brace);
    EntriesSplit(c.entries, "\n" + (lines + (Spaces(k) + brace)));
    hide Heading, EntriesThen, TriviaThen, Spaces, NewLine, NewEntries, Lines, ProperEntries, ProperTrivia;
    assert Heading(d) == Heading(c) by {
      SameHeading(c, d);
    }
    FivePieces(Heading(c), "{", EntriesThen(c.entries, []), "\n", lines, Spaces(k) + brace);
  }

  lemma SameHeading(c: ConfigForm, d: ConfigForm)
    requires |c.gaps| == 8 && d.gaps == c.gaps
    ensures Heading(c) == Heading(d)
  {
    hide TriviaThen;
  }

  /** Updating a tidy configuration, whatever was written by hand in it: refused exactly when an alias is
      unsafe or bound to another path; otherwise the new aliases follow the old ones, the rest of the text
      stays, and the result is tidy again. */
  lemma TidyUpdate(safePath: string -> bool, c: ConfigForm, k: nat, aliases: seq<Alias>)
    requires ProperConfig(c) && Tidy(c, k) && NoReturn(Written(c)) && aliases != []
    ensures var known := AliasesOf(c.entries);
      var d := WithAliases(c, k, Fresh(known, aliases));
      && ProperConfig(d) && Tidy(d, k) && AliasesOf(d.entries) == known + Fresh(known, aliases)
      && UpdateAliases(safePath, Written(c), aliases) ==
         if !AllCompatible(safePath, known, aliases) then Refused
         else Updated(Written(d), Fresh(known, aliases) != [])
  {
    hide FindTable, Insert, Additions, Acceptable, AllCompatible, Written, ProperConfig, Tidy, AliasesOf, Fresh;
    hide NoReturn, TablePlace, UpdateAliases, WithAliases;
    TableOpens(c);
    var known := AliasesOf(c.entries);
    var added := Fresh(known, aliases);
    WithAliasesIsProper(c, k, added);
    WrittenTableIsFound(c);
    WrittenAcceptable(safePath, c, aliases);
    TidyInsert(c, k, added);
    UpdateIs(safePath, Written(c), TablePlace(c), aliases);
    if AllCompatible(safePath, known, aliases) {
      WrittenAdditions(safePath, c, aliases);
      if added == [] {
        WithNothing(c, k);
      }
    }
  }

  lemma WithNothing(c: ConfigForm, k: nat)
    ensures WithAliases(c, k, []) == c
  {
    NoNewEntries(k);
    assert c.entries + [] == c.entries;
  }

  lemma UpdateIs(safePath: string -> bool, text: string, place: Place, aliases: seq<Alias>)
    requires FindTable(text) == Some(place) && aliases != []
    requires place.open != [] && 0 <= |text| - |place.open| < |text| - |place.close| < |text|
    ensures UpdateAliases(safePath, text, aliases) ==
      if !Acceptable(safePath, place, aliases) then Refused
      else if Additions(safePath, place, aliases) == [] then Updated(text, false)
      else Updated(Insert(text, |text| - |place.open|, |text| - |place.close|, Additions(safePath, place, aliases)),
        true)
  {
    hide FindTable, Insert, Additions, Acceptable;
  }
}
