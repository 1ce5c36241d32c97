/** Where the search for an alias reads: a value is looked for without a test for the end of the text. */
module ConfigReads {
  import opened Wrappers
  import opened Characters
  import opened ConfigText
  import opened ConfigRoundTrip

  lemma OverrunsSkips(s: string, t: string, n: nat, wanted: string)
    requires Skip(s) == Skip(t)
    ensures Overruns(s, n, wanted) == Overruns(t, n, wanted)
  {
  }

  lemma OverrunsComma(s: string, n: nat, wanted: string)
    requires |s| >= n
    ensures Overruns("," + s, n, wanted) == Overruns(s, n, wanted)
  {
    assert "," + s == [','] + s;
    SkipStep(',', s);
    assert ([','] + s)[1..] == s;
  }

  /** The search when it meets a key, an equals sign and a value. */
  lemma OverrunsStep(s: string, n: nat, wanted: string, key: string, rest: string, after: string, value: string,
                     behind: string)
    requires Skip(s) == s && |s| > n && ReadKey(s, n) == Key(key, rest) && Skip(rest) == "=" + after && |after| >= n
    requires Skip(after) == value && value != [] && ReadValue(value, n).1 == behind
    ensures Overruns(s, n, wanted) <==> key != wanted && Overruns(behind, n, wanted)
  {
    hide Skip, ReadKey, ReadValue;
    var u := "=" + after;
    assert u[0] == '=' && u[1..] == after;
  }

  lemma OverrunsEntry(a: Alias, rest: string, n: nat, wanted: string)
    requires |rest| >= n
    ensures Overruns(Entry(a) + rest, n, wanted) <==> a.name != wanted && Overruns(rest, n, wanted)
  {
    var behind := "," + rest;
    var value := InQuotes(a.path) + behind;
    var equals := "] = " + value;
    EntryParts(a, rest);
    KeyOfEntry(a.name, value, n);
    ValueOfEntry(a.path, behind, n);
    QuotesSkip(a.path, behind);
    OverrunsComma(rest, n, wanted);
    var s := ['['] + (InQuotes(a.name) + equals);
    SkipStep('[', InQuotes(a.name) + equals);
    EqualsSign(value);
    hide InQuotes, Entry, Skip, ReadKey, ReadValue;
    OverrunsStep(s, n, wanted, a.name, " = " + value, " " + value, value, behind);
  }

  lemma {:induction false} OverrunsInBody(aliases: seq<Alias>, rest: string, n: nat, wanted: string)
    requires |rest| >= n
    ensures Overruns(Body(aliases) + rest, n, wanted) <==> Lookup(aliases, wanted).None? && Overruns(rest, n, wanted)
    decreases |aliases|
  {
    if aliases == [] {
      assert Body(aliases) + rest == rest;
    } else {
      var more := Body(aliases[1..]) + rest;
      BodyHead(aliases, rest);
      hide Entry, Body, Spaces, Overruns;
      SkipSpaces(12, Entry(aliases[0]) + ("\n" + more));
      OverrunsSkips(Body(aliases) + rest, Entry(aliases[0]) + ("\n" + more), n, wanted);
      OverrunsEntry(aliases[0], "\n" + more, n, wanted);
      assert "\n" + more == ['\n'] + more;
      SkipStep('\n', more);
      OverrunsSkips("\n" + more, more, n, wanted);
      OverrunsInBody(aliases[1..], rest, n, wanted);
    }
  }

  /** In a generated configuration every value that is looked for is there. */
  lemma GeneratedStaysInRange(aliases: seq<Alias>, wanted: string)
    ensures var p := FindTable(Generated(aliases));
      p.Some? && p.value.open != [] && !Overruns(p.value.open[1..], |p.value.close|, wanted)
  {
    hide FindTable, Generated, Body, Spaces, Closing;
    TableIsFound(aliases);
    TableTextStarts(aliases);
    var inside := Body(aliases) + (Spaces(8) + Closing());
    assert TableText(aliases)[1..] == ['\n'] + inside;
    SkipStep('\n', inside);
    ClosingStarts();
    SkipSpaces(8, Closing());
    OverrunsSkips(['\n'] + inside, inside, |Closing()|, wanted);
    OverrunsInBody(aliases, Spaces(8) + Closing(), |Closing()|, wanted);
    OverrunsSkips(Spaces(8) + Closing(), Closing(), |Closing()|, wanted);
  }

  // ----- a text on which it happens -----

  const UNTERMINATED := " a = --[["

  /** An alias table that holds one string and nothing else. */
  function StringTable(): (r: string) {
    "aliases" + (" = " + ("{ " + (InQuotes(UNTERMINATED) + " }")))
  }

  lemma BodyFollows(inside: string)
    ensures TableBody(" = " + ("{ " + inside)) == Some("{ " + inside)
  {
    var body := ['{'] + ([' '] + inside);
    assert "{ " + inside == body;
    assert " = " + body == [' '] + (['='] + ([' '] + body));
    SkipStep(' ', ['='] + ([' '] + body));
    SkipStep('=', [' '] + body);
    SkipStep(' ', body);
    SkipStep('{', [' '] + inside);
    hide Skip;
    assert (['='] + ([' '] + body))[1..] == [' '] + body;
  }

  lemma BraceCloses()
    ensures FindClose(" }", 1) == Some("}")
  {
    assert " }" == [' '] + "}";
    FindCloseStep(' ', "}");
  }

  lemma StringTableIsFound()
    ensures FindTable(StringTable()) == Some(Place("{ " + (InQuotes(UNTERMINATED) + " }"), "}"))
  {
    hide InQuotes, Identifier, FindClose, FindTable, TableBody;
    var inside := InQuotes(UNTERMINATED) + " }";
    var body := "{ " + inside;
    BodyFollows(inside);
    FindTableAliases(" = " + body, body);
    assert body[1..] == [' '] + inside;
    FindCloseStep(' ', inside);
    FindCloseQuotes(UNTERMINATED, " }");
    BraceCloses();
  }

  lemma {:induction false} PlainIsEscaped(s: string)
    requires forall i :: 0 <= i < |s| ==> s[i] != '\\' && s[i] != '"'
    ensures Escape(s) == s
  {
    if s != [] {
      PlainIsEscaped(s[..|s| - 1]);
    }
  }

  /** The search enters the string, takes it for a key with an equals sign, and the comment it meets
      there takes it to the end of the text. */
  lemma StringTableOverruns(wanted: string)
    ensures var p := FindTable(StringTable());
      p.Some? && p.value.open != [] && Overruns(p.value.open[1..], |p.value.close|, wanted)
  {
    StringTableIsFound();
    hide FindTable, Overruns, Skip;
    PlainIsEscaped(UNTERMINATED);
    var comment := "--[[\" }";
    var key := "a = " + comment;
    var open := "{ " + (InQuotes(UNTERMINATED) + " }");
    assert open[1..] == [' '] + (['"'] + ([' '] + key));
    SkipStep(' ', ['"'] + ([' '] + key));
    SkipStep('"', [' '] + key);
    OverrunsSkips(open[1..], ['"'] + ([' '] + key), 1, wanted);
    OverrunsQuote([' '] + key, 1, wanted);
    SkipStep(' ', key);
    OverrunsSkips([' '] + key, key, 1, wanted);
    KeyOverruns(comment, wanted);
  }

  lemma OverrunsQuote(s: string, n: nat, wanted: string)
    requires |s| >= n
    ensures Overruns(['"'] + s, n, wanted) == Overruns(s, n, wanted)
  {
    SkipStep('"', s);
    assert (['"'] + s)[1..] == s;
  }

  /** The search when it meets a key and an equals sign with nothing behind it. */
  lemma OverrunsHere(s: string, n: nat, wanted: string, key: string, rest: string, after: string)
    requires Skip(s) == s && |s| > n && ReadKey(s, n) == Key(key, rest) && Skip(rest) == "=" + after && |after| >= n
    requires Skip(after) == []
    ensures Overruns(s, n, wanted)
  {
    hide Skip, ReadKey, ReadValue;
    var u := "=" + after;
    assert u[0] == '=' && u[1..] == after;
  }

  lemma OneLetterKey(rest: string, n: nat)
    requires rest != [] && !IsIdentifierCharacter(rest[0]) && |rest| >= n
    ensures Skip(['a'] + rest) == ['a'] + rest && ReadKey(['a'] + rest, n) == Key("a", rest)
  {
    SkipStep('a', rest);
    hide Skip;
    assert (['a'] + rest)[1..] == rest;
    assert Identifier(rest, n) == [];
  }

  lemma KeyOverruns(comment: string, wanted: string)
    requires comment == "--[[\" }"
    ensures Overruns("a = " + comment, 1, wanted)
  {
    hide Overruns, ReadKey, Skip;
    var after := [' '] + comment;
    var rest := [' '] + (['='] + after);
    assert "a = " + comment == ['a'] + rest;
    OneLetterKey(rest, 1);
    SkipStep(' ', ['='] + after);
    SkipStep('=', after);
    SkipStep(' ', comment);
    BlockRunsOut(comment);
    OverrunsHere(['a'] + rest, 1, wanted, "a", rest, after);
  }

  lemma BlockRunsOut(comment: string)
    requires comment == "--[[\" }"
    ensures Skip(comment) == []
  {
    assert comment[4..] == "\" }";
    assert "\" }"[1..] == " }" && " }"[1..] == "}";
    assert AfterBlock("}") == [] && AfterBlock(" }") == [] && AfterBlock("\" }") == [];
    assert BlockStarts(comment[2..]);
  }
}
