/** Generated configurations: scanning finds every alias, and updating appends exactly what is new. */
module ConfigRoundTrip {
  import opened Wrappers
  import opened Characters
  import opened ConfigText

  // ----- escaping -----

  function EscapeChar(c: char): (r: string) {
    if c == '\\' || c == '"' then ['\\', c] else [c]
  }

  lemma {:induction false} EscapeAppend(a: string, b: string)
    ensures Escape(a + b) == Escape(a) + Escape(b)
    decreases |b|
  {
    if b == [] {
      assert a + b == a;
    } else {
      assert (a + b)[..|a + b| - 1] == a + b[..|b| - 1];
      EscapeAppend(a, b[..|b| - 1]);
    }
  }

  lemma EscapeHead(c: char, s: string)
    ensures Escape([c] + s) == EscapeChar(c) + Escape(s)
  {
    EscapeAppend([c], s);
    assert [c][..0] == [];
    assert Escape([c]) == EscapeChar(c);
  }

  /** An escaped string reads back, whatever follows its closing quote. */
  lemma {:induction false} EscapedReads(v: string, rest: string, done: string)
    ensures ReadBody(Escape(v) + ("\"" + rest), '"', done) == Quoted(true, done + v, rest)
    decreases |v|
  {
    var s := Escape(v) + ("\"" + rest);
    if v == [] {
      assert s == ['"'] + rest && s[1..] == rest && done + v == done;
    } else {
      var c, tail := v[0], v[1..];
      assert v == [c] + tail;
      EscapeHead(c, tail);
      var more := Escape(tail) + ("\"" + rest);
      assert s == EscapeChar(c) + more;
      hide Escape;
      EscapedReads(tail, rest, done + [c]);
      assert done + [c] + tail == done + v;
      if c == '\\' || c == '"' {
        assert s[2..] == more && s[1] == c && s[0] == '\\';
      } else {
        assert s[1..] == more && s[0] == c;
      }
    }
  }

  lemma {:induction false} EscapedSkips(v: string, rest: string)
    ensures SkipBody(Escape(v) + ("\"" + rest), '"') == Skipped(true, rest)
    decreases |v|
  {
    var s := Escape(v) + ("\"" + rest);
    if v == [] {
      assert s == ['"'] + rest && s[1..] == rest;
    } else {
      var c, tail := v[0], v[1..];
      assert v == [c] + tail;
      EscapeHead(c, tail);
      var more := Escape(tail) + ("\"" + rest);
      assert s == EscapeChar(c) + more;
      hide Escape;
      EscapedSkips(tail, rest);
      if c == '\\' || c == '"' {
        assert s[2..] == more && s[0] == '\\';
      } else {
        assert s[1..] == more && s[0] == c;
      }
    }
  }

  function InQuotes(v: string): (r: string) {
    "\"" + Escape(v) + "\""
  }

  lemma QuotesRead(v: string, rest: string)
    ensures ReadQuoted(InQuotes(v) + rest) == Quoted(true, v, rest)
    ensures SkipQuoted(InQuotes(v) + rest) == Skipped(true, rest)
  {
    var s := InQuotes(v) + rest;
    assert s[0] == '"' && s[1..] == Escape(v) + ("\"" + rest);
    EscapedReads(v, rest, []);
    EscapedSkips(v, rest);
    assert [] + v == v;
  }

  // ----- one step of each scanner -----

  lemma SkipStep(c: char, s: string)
    ensures IsSpace(c) ==> Skip([c] + s) == Skip(s)
    ensures !IsSpace(c) && c != '-' ==> Skip([c] + s) == [c] + s
  {
    assert ([c] + s)[1..] == s;
  }

  lemma {:induction false} SkipSpaces(n: nat, s: string)
    ensures Skip(Spaces(n) + s) == Skip(s)
  {
    if n > 0 {
      assert Spaces(n) + s == [' '] + (Spaces(n - 1) + s);
      SkipStep(' ', Spaces(n - 1) + s);
      SkipSpaces(n - 1, s);
    } else {
      assert Spaces(0) + s == s;
    }
  }

  /** White space in front makes no difference to the search for an alias. */
  lemma FindAliasSkips(s: string, t: string, n: nat, wanted: string)
    requires Skip(s) == Skip(t)
    ensures FindAlias(s, n, wanted) == FindAlias(t, n, wanted)
  {
  }

  lemma FindAliasComma(s: string, n: nat, wanted: string)
    requires |s| >= n
    ensures FindAlias("," + s, n, wanted) == FindAlias(s, n, wanted)
  {
    assert "," + s == [','] + s;
    SkipStep(',', s);
    assert ([','] + s)[1..] == s;
  }

  /** An entry as its parts. */
  lemma EntryParts(a: Alias, rest: string)
    ensures Entry(a) + rest == ['['] + (InQuotes(a.name) + ("] = " + (InQuotes(a.path) + ("," + rest))))
  {
  }

  /** The search either finds the alias in the entry or goes on behind it. */
  lemma FindAliasEntry(a: Alias, rest: string, n: nat, wanted: string)
    requires |rest| >= n
    ensures FindAlias(Entry(a) + rest, n, wanted) ==
      if a.name == wanted then Some(Existing(a.path, true)) else FindAlias(rest, n, wanted)
  {
    var behind := "," + rest;
    var value := InQuotes(a.path) + behind;
    var equals := "] = " + value;
    EntryParts(a, rest);
    KeyOfEntry(a.name, value, n);
    ValueOfEntry(a.path, behind, n);
    FindAliasComma(rest, n, wanted);
    var s := ['['] + (InQuotes(a.name) + equals);
    SkipStep('[', InQuotes(a.name) + equals);
    EqualsSign(value);
    hide InQuotes, Entry, Skip, ReadKey, ReadValue;
    FindAliasStep(s, n, wanted, a.name, " = " + value, " " + value, Existing(a.path, true), behind);
  }

  /** The search when it meets a key, an equals sign and a value. */
  lemma FindAliasStep(s: string, n: nat, wanted: string, key: string, rest: string, after: string, value: Existing,
                      behind: string)
    requires Skip(s) == s && |s| > n && ReadKey(s, n) == Key(key, rest)
    requires Skip(rest) == "=" + after && |after| >= n && ReadValue(Skip(after), n) == (value, behind)
    ensures FindAlias(s, n, wanted) == if key == wanted then Some(value) else FindAlias(behind, n, wanted)
  {
    hide Skip, ReadKey, ReadValue;
    var u := "=" + after;
    assert u[0] == '=' && u[1..] == after;
  }

  lemma EqualsSign(value: string)
    ensures Skip(" = " + value) == "=" + (" " + value) && Skip(" " + value) == Skip(value)
  {
    assert " = " + value == [' '] + (['='] + ([' '] + value));
    SkipStep(' ', ['='] + ([' '] + value));
    SkipStep('=', [' '] + value);
    SkipStep(' ', value);
    assert " " + value == [' '] + value;
    assert "=" + (" " + value) == ['='] + ([' '] + value);
  }

  lemma KeyOfEntry(name: string, value: string, n: nat)
    requires |value| >= n
    ensures ReadKey(['['] + (InQuotes(name) + ("] = " + value)), n) == Key(name, " = " + value)
  {
    var equals := "] = " + value;
    var s := ['['] + (InQuotes(name) + equals);
    assert s[1..] == InQuotes(name) + equals;
    QuotesSkip(name, equals);
    QuotesRead(name, equals);
    assert equals == [']'] + (" = " + value);
    SkipStep(']', " = " + value);
    assert equals[1..] == " = " + value;
    hide InQuotes, ReadQuoted, Skip;
  }

  lemma ValueOfEntry(path: string, behind: string, n: nat)
    ensures ReadValue(Skip(InQuotes(path) + behind), n) == (Existing(path, true), behind)
  {
    QuotesSkip(path, behind);
    QuotesStart(path, behind);
    QuotesRead(path, behind);
    hide InQuotes, ReadQuoted, Skip;
  }

  lemma QuotesSkip(v: string, rest: string)
    ensures Skip(InQuotes(v) + rest) == InQuotes(v) + rest
  {
  }

  lemma QuotesStart(v: string, rest: string)
    ensures InQuotes(v) + rest != [] && (InQuotes(v) + rest)[0] == '"'
  {
  }

  // ----- the lines of the table -----

  function Body(aliases: seq<Alias>): (r: string) {
    Lines(Spaces(12), "\n", aliases)
  }

  lemma {:induction false} LinesAppend(indent: string, newline: string, a: seq<Alias>, b: seq<Alias>)
    ensures Lines(indent, newline, a + b) == Lines(indent, newline, a) + Lines(indent, newline, b)
    decreases |b|
  {
    hide Entry;
    if b == [] {
      assert a + b == a;
    } else {
      assert (a + b)[..|a + b| - 1] == a + b[..|b| - 1];
      LinesAppend(indent, newline, a, b[..|b| - 1]);
    }
  }

  lemma BodyHead(aliases: seq<Alias>, rest: string)
    requires aliases != []
    ensures Body(aliases) + rest == Spaces(12) + (Entry(aliases[0]) + ("\n" + (Body(aliases[1..]) + rest)))
  {
    hide Entry, Spaces;
    var a := aliases[0];
    assert aliases == [a] + aliases[1..];
    LinesAppend(Spaces(12), "\n", [a], aliases[1..]);
    assert [a][..0] == [];
    assert Lines(Spaces(12), "\n", [a]) == Spaces(12) + Entry(a) + "\n";
  }

  /** The path of the first entry for a name. */
  function Lookup(aliases: seq<Alias>, name: string): (r: Option<string>) {
    if aliases == [] then None
    else if aliases[0].name == name then Some(aliases[0].path)
    else Lookup(aliases[1..], name)
  }

  lemma {:induction false} LookupDistinct(aliases: seq<Alias>, i: nat)
    requires i < |aliases| && forall j, k :: 0 <= j < k < |aliases| ==> aliases[j].name != aliases[k].name
    ensures Lookup(aliases, aliases[i].name) == Some(aliases[i].path)
    decreases |aliases|
  {
    if i > 0 {
      LookupDistinct(aliases[1..], i - 1);
    }
  }

  function Entered(path: Option<string>): (r: Option<Existing>) {
    if path.None? then None else Some(Existing(path.value, true))
  }

  /** Searching the lines of a table finds the first entry, or goes on behind them. */
  lemma {:induction false} FindAliasInBody(aliases: seq<Alias>, rest: string, n: nat, wanted: string)
    requires |rest| >= n
    ensures FindAlias(Body(aliases) + rest, n, wanted) ==
      if Lookup(aliases, wanted).Some? then Entered(Lookup(aliases, wanted)) else FindAlias(rest, n, wanted)
    decreases |aliases|
  {
    if aliases == [] {
      assert Body(aliases) + rest == rest;
    } else {
      var more := Body(aliases[1..]) + rest;
      BodyHead(aliases, rest);
      hide Entry, Body, Spaces, FindAlias;
      SkipSpaces(12, Entry(aliases[0]) + ("\n" + more));
      FindAliasSkips(Body(aliases) + rest, Entry(aliases[0]) + ("\n" + more), n, wanted);
      FindAliasEntry(aliases[0], "\n" + more, n, wanted);
      assert "\n" + more == ['\n'] + more;
      SkipStep('\n', more);
      FindAliasSkips("\n" + more, more, n, wanted);
      FindAliasInBody(aliases[1..], rest, n, wanted);
    }
  }

  // ----- the closing brace -----

  lemma FindCloseStep(c: char, s: string)
    requires c != '-' && !IsQuote(c) && c != '{' && c != '}'
    ensures FindClose([c] + s, 1) == FindClose(s, 1)
  {
    assert ([c] + s)[1..] == s;
  }

  lemma {:induction false} FindCloseSpaces(k: nat, s: string)
    ensures FindClose(Spaces(k) + s, 1) == FindClose(s, 1)
  {
    if k == 0 {
      assert Spaces(0) + s == s;
    } else {
      assert Spaces(k) + s == [' '] + (Spaces(k - 1) + s);
      FindCloseStep(' ', Spaces(k - 1) + s);
      FindCloseSpaces(k - 1, s);
    }
  }

  lemma FindCloseQuotes(v: string, rest: string)
    ensures FindClose(InQuotes(v) + rest, 1) == FindClose(rest, 1)
  {
    QuotesRead(v, rest);
    QuotesStart(v, rest);
    hide InQuotes, SkipQuoted;
  }

  lemma FindCloseEntry(a: Alias, rest: string)
    ensures FindClose(Entry(a) + rest, 1) == FindClose(rest, 1)
  {
    var behind := "," + rest;
    var value := InQuotes(a.path) + behind;
    var equals := "] = " + value;
    EntryParts(a, rest);
    hide InQuotes, Entry, FindClose;
    FindCloseStep('[', InQuotes(a.name) + equals);
    FindCloseQuotes(a.name, equals);
    assert equals == [']'] + ([' '] + (['='] + ([' '] + value)));
    FindCloseStep(']', [' '] + (['='] + ([' '] + value)));
    FindCloseStep(' ', ['='] + ([' '] + value));
    FindCloseStep('=', [' '] + value);
    FindCloseStep(' ', value);
    FindCloseQuotes(a.path, behind);
    assert behind == [','] + rest;
    FindCloseStep(',', rest);
  }

  lemma {:induction false} FindCloseBody(aliases: seq<Alias>, rest: string)
    ensures FindClose(Body(aliases) + rest, 1) == FindClose(rest, 1)
    decreases |aliases|
  {
    if aliases == [] {
      assert Body(aliases) + rest == rest;
    } else {
      var more := Body(aliases[1..]) + rest;
      BodyHead(aliases, rest);
      hide Entry, Body, Spaces, FindClose;
      FindCloseSpaces(12, Entry(aliases[0]) + ("\n" + more));
      FindCloseEntry(aliases[0], "\n" + more);
      assert "\n" + more == ['\n'] + more;
      FindCloseStep('\n', more);
      FindCloseBody(aliases[1..], rest);
    }
  }

  // ----- finding the table -----

  lemma FindTableSkips(s: string, t: string)
    requires Skip(s) == Skip(t)
    ensures FindTable(s) == FindTable(t)
  {
  }

  lemma FindTableOther(c: char, s: string)
    requires !IsSpace(c) && c != '-' && !IsQuote(c) && !IsIdentifierStart(c)
    ensures FindTable([c] + s) == FindTable(s)
  {
    SkipStep(c, s);
    assert ([c] + s)[1..] == s;
  }

  predicate IsWord(word: string) {
    word != [] && IsIdentifierStart(word[0]) && forall i :: 0 <= i < |word| ==> IsIdentifierCharacter(word[i])
  }

  lemma {:induction false} IdentifierIs(word: string, rest: string)
    requires (forall i :: 0 <= i < |word| ==> IsIdentifierCharacter(word[i]))
    requires (rest == [] || !IsIdentifierCharacter(rest[0]))
    ensures Identifier(word + rest, 0) == word
    decreases |word|
  {
    if word == [] {
      assert word + rest == rest;
    } else {
      assert (word + rest)[1..] == word[1..] + rest;
      IdentifierIs(word[1..], rest);
    }
  }

  lemma FindTableWord(word: string, rest: string)
    requires IsWord(word) && word != "aliases" && rest != [] && !IsIdentifierCharacter(rest[0])
    ensures FindTable(word + rest) == FindTable(rest)
  {
    var s := word + rest;
    IdentifierIs(word, rest);
    assert s == [s[0]] + s[1..];
    SkipStep(s[0], s[1..]);
    assert s[|word|..] == rest;
  }

  lemma FindTableAliases(rest: string, body: string)
    requires rest != [] && !IsIdentifierCharacter(rest[0]) && TableBody(rest) == Some(body)
    ensures FindTable("aliases" + rest) ==
      if FindClose(body[1..], 1).None? then None else Some(Place(body, FindClose(body[1..], 1).value))
  {
    var s := "aliases" + rest;
    IdentifierIs("aliases", rest);
    assert s == [s[0]] + s[1..];
    SkipStep(s[0], s[1..]);
    assert s[|"aliases"|..] == rest;
    hide TableBody, FindClose, Identifier;
  }

  /** The table of a generated configuration, from its opening brace on. */
  function TableText(aliases: seq<Alias>): (r: string) {
    "{\n" + (Body(aliases) + (Spaces(8) + Closing()))
  }

  lemma GeneratedParts(aliases: seq<Alias>)
    ensures Generated(aliases) ==
      "return" + (" {\n" + (Spaces(4) +
        ("luau" + (" = {\n" + (Spaces(8) + ("aliases" + (" = " + TableText(aliases))))))))
  {
    hide Spaces, Lines;
  }

  lemma FindTableOpening(s: string, t: string, u: string)
    requires t == "luau" + (" = {\n" + (Spaces(8) + u)) && s == "return" + (" {\n" + (Spaces(4) + t))
    ensures FindTable(s) == FindTable(u)
  {
    hide FindTable, Spaces, Identifier;
    var a := " {\n" + (Spaces(4) + t);
    FindTableWord("return", a);
    BracePasses(" ", Spaces(4) + t);
    assert a == " " + ("{\n" + (Spaces(4) + t));
    SkipSpaces(4, t);
    FindTableSkips(Spaces(4) + t, t);
    var b := " = {\n" + (Spaces(8) + u);
    FindTableWord("luau", b);
    assert b == [' '] + (['='] + (" " + ("{\n" + (Spaces(8) + u))));
    SkipStep(' ', ['='] + (" " + ("{\n" + (Spaces(8) + u))));
    FindTableSkips(b, ['='] + (" " + ("{\n" + (Spaces(8) + u))));
    FindTableOther('=', " " + ("{\n" + (Spaces(8) + u)));
    BracePasses(" ", Spaces(8) + u);
    SkipSpaces(8, u);
    FindTableSkips(Spaces(8) + u, u);
  }

  lemma BracePasses(space: string, s: string)
    requires space == " "
    ensures FindTable(space + ("{\n" + s)) == FindTable(s)
  {
    hide FindTable;
    var a, b := ['{'] + (['\n'] + s), ['\n'] + s;
    assert space + ("{\n" + s) == [' '] + a;
    SkipStep(' ', a);
    FindTableSkips([' '] + a, a);
    FindTableOther('{', b);
    SkipStep('\n', s);
    FindTableSkips(b, s);
  }

  lemma ClosingStarts()
    ensures Closing() != [] && Closing()[0] == '}' && Skip(Closing()) == Closing()
    ensures FindClose(Closing(), 1) == Some(Closing())
  {
    hide Spaces;
  }

  /** Scanning a generated configuration finds its table. */
  lemma TableIsFound(aliases: seq<Alias>)
    ensures FindTable(Generated(aliases)) == Some(Place(TableText(aliases), Closing()))
  {
    var table := TableText(aliases);
    GeneratedParts(aliases);
    hide Generated, FindTable, Spaces, Body, Closing;
    var u := "aliases" + (" = " + table);
    FindTableOpening(Generated(aliases), "luau" + (" = {\n" + (Spaces(8) + u)), u);
    TableBodyIs(table);
    FindTableAliases(" = " + table, table);
    var inside := Body(aliases) + (Spaces(8) + Closing());
    assert table[1..] == ['\n'] + inside;
    FindCloseStep('\n', inside);
    FindCloseBody(aliases, Spaces(8) + Closing());
    FindCloseSpaces(8, Closing());
    ClosingStarts();
  }

  lemma TableBodyIs(table: string)
    requires table != [] && table[0] == '{'
    ensures TableBody(" = " + table) == Some(table)
  {
    hide Skip, IsSpace;
    EqualsSign(table);
    BraceStays(table);
    var a := "=" + (" " + table);
    assert a[0] == '=' && a[1..] == " " + table;
  }

  lemma BraceStays(table: string)
    requires table != [] && table[0] == '{'
    ensures Skip(table) == table
  {
    assert table == [table[0]] + table[1..];
    SkipStep('{', table[1..]);
  }

  /** Scanning a generated configuration finds every alias with its exact path, and no other. */
  lemma AliasIsFound(aliases: seq<Alias>, wanted: string)
    ensures FindAlias(TableText(aliases)[1..], |Closing()|, wanted) == Entered(Lookup(aliases, wanted))
  {
    hide Body, Spaces, Closing;
    var inside := Body(aliases) + (Spaces(8) + Closing());
    assert TableText(aliases)[1..] == ['\n'] + inside;
    SkipStep('\n', inside);
    ClosingStarts();
    SkipSpaces(8, Closing());
    FindAliasSkips(['\n'] + inside, inside, |Closing()|, wanted);
    FindAliasInBody(aliases, Spaces(8) + Closing(), |Closing()|, wanted);
    FindAliasSkips(Spaces(8) + Closing(), Closing(), |Closing()|, wanted);
  }

  // ----- inserting into a generated configuration -----

  function Front(aliases: seq<Alias>): (r: string) {
    Opening() + Body(aliases)
  }

  lemma OpeningEnds()
    ensures |Opening()| >= 2 && Opening()[|Opening()| - 1] == '\n' && Opening()[|Opening()| - 2] == '{'
    ensures Opening() == Opening()[..|Opening()| - 2] + "{\n"
  {
    hide Spaces;
  }

  lemma BodyEnds(aliases: seq<Alias>)
    requires aliases != []
    ensures var b := Body(aliases); |b| >= 2 && b[|b| - 1] == '\n' && b[|b| - 2] == ','
  {
    hide Spaces, Escape;
    var last := aliases[|aliases| - 1];
    assert Body(aliases) == Body(aliases[..|aliases| - 1]) + (Spaces(12) + Entry(last) + "\n");
    assert Entry(last)[|Entry(last)| - 1] == ',';
  }

  lemma FrontEnds(aliases: seq<Alias>)
    ensures var f := Front(aliases); |f| >= |Opening()| >= 2 && f[|f| - 1] == '\n'
    ensures var f := Front(aliases); f[|Opening()| - 1] == '\n'
    ensures var f := Front(aliases); aliases != [] ==> |f| > |Opening()| && f[|f| - 2] == ','
    ensures var f := Front(aliases); aliases == [] ==> |f| == |Opening()|
  {
    OpeningEnds();
    if aliases == [] {
      assert Body(aliases) == [];
      assert Opening() + [] == Opening();
    } else {
      BodyEnds(aliases);
      hide Body;
    }
  }

  lemma {:induction false} TrimSpaces(s: string, low: nat, i: nat, k: nat)
    requires low + k <= i <= |s| && forall j :: i - k <= j < i ==> s[j] == ' '
    ensures TrimEnd(s, low, i) == TrimEnd(s, low, i - k)
    decreases k
  {
    if k > 0 {
      TrimSpaces(s, low, i - 1, k - 1);
    }
  }

  lemma {:induction false} LineStartSpaces(s: string, i: nat, k: nat)
    requires k < i < |s| && s[i] != '\n' && (forall j :: i - k <= j < i ==> s[j] == ' ') && s[i - k - 1] == '\n'
    ensures LineStart(s, i) == i - k
    decreases k
  {
    if k > 0 {
      LineStartSpaces(s, i - 1, k - 1);
    }
  }

  lemma {:induction false} IndentationIs(k: nat, s: string)
    requires s != [] && s[0] != ' ' && s[0] != '\t'
    ensures Indentation(Spaces(k) + s) == Spaces(k)
  {
    if k == 0 {
      assert Spaces(0) + s == s;
    } else {
      assert (Spaces(k) + s)[1..] == Spaces(k - 1) + s;
      IndentationIs(k - 1, s);
    }
  }

  lemma {:induction false} SpacesAre(k: nat, i: nat)
    requires i < k
    ensures Spaces(k)[i] == ' '
  {
    if i > 0 {
      SpacesAre(k - 1, i - 1);
    }
  }

  /** The last place where the comma, the line start and the indentation are looked for, when the closing
      brace stands behind k blanks on a line of its own. */
  lemma InsertionPoint(front: string, low: nat, comma: bool, k: nat, back: string, text: string)
    requires text == front + Spaces(k) + back && 2 <= |front| && front[|front| - 1] == '\n'
    requires back != [] && back[0] == '}'
    requires if comma then low < |front| - 1 && front[|front| - 2] == ',' else low == |front| - 1
    ensures var close := |front| + k;
      && close < |text| && text[close] == '}' && text[..|front|] == front && text[|front|..] == Spaces(k) + back
      && LineStart(text, close) == |front|
      && TrimEnd(text, low, close) == |front| - 1
      && Indentation(text[|front|..]) == Spaces(k)
  {
    var close := |front| + k;
    forall j | |front| <= j < close ensures text[j] == ' ' {
      SpacesAre(k, j - |front|);
      assert text[j] == Spaces(k)[j - |front|];
    }
    hide Spaces;
    assert text[close] == back[0];
    assert text[|front|..] == Spaces(k) + back && text[..|front|] == front;
    assert text[|front| - 1] == '\n' && text[|front| - 2] == front[|front| - 2];
    LineStartSpaces(text, close, k);
    TrimSpaces(text, low, close, k);
    assert TrimEnd(text, low, |front|) == TrimEnd(text, low, |front| - 1);
    IndentationIs(k, back);
  }

  predicate NoReturn(s: string) {
    forall i :: 0 <= i < |s| ==> s[i] != '\r'
  }

  lemma TwelveSpaces()
    ensures Spaces(8) + "    " == Spaces(12)
  {
    assert Spaces(4) == "    ";
    SpacesAdd(8, 4);
  }

  lemma {:induction false} SpacesAdd(a: nat, b: nat)
    ensures Spaces(a) + Spaces(b) == Spaces(a + b)
  {
    if a == 0 {
      assert Spaces(0) + Spaces(b) == Spaces(b);
    } else {
      SpacesAdd(a - 1, b);
      assert Spaces(a) + Spaces(b) == [' '] + (Spaces(a - 1) + Spaces(b));
    }
  }

  lemma InsertAt(front: string, open: nat, comma: bool, k: nat, back: string, text: string, additions: seq<Alias>)
    requires text == front + Spaces(k) + back && 2 <= |front| && front[|front| - 1] == '\n' && NoReturn(text)
    requires back != [] && back[0] == '}'
    requires if comma then open + 1 < |front| - 1 && front[|front| - 2] == ',' else open + 1 == |front| - 1
    ensures var close := |front| + k;
      open < close < |text| &&
      Insert(text, open, close, additions) ==
        front + Lines(Spaces(k) + "    ", "\n", additions) + (Spaces(k) + back)
  {
    var close := |front| + k;
    InsertionPoint(front, open + 1, comma, k, back, text);
    hide Spaces, TrimEnd, LineStart, Indentation, Lines;
    PrefixAt(front, Spaces(k) + back, text);
    CommaIsThere(text, open, close, |front| - 1);
    BreakInside(text, open, close, |front| - 1);
    hide WithComma, HasNewline, HasReturnNewline, NoReturn;
  }

  lemma CommaIsThere(text: string, open: nat, close: nat, last: nat)
    requires open < close < |text| && TrimEnd(text, open + 1, close) == last
    requires last <= open + 1 || text[last - 1] == ','
    ensures WithComma(text, open, close) == text
  {
    hide TrimEnd;
  }

  lemma BreakInside(text: string, open: nat, close: nat, at: nat)
    requires open < at < close < |text| && text[at] == '\n' && NoReturn(text)
    ensures HasNewline(text[open..close]) && !HasReturnNewline(text)
  {
    assert text[open..close][at - open] == text[at];
  }

  lemma PrefixAt(front: string, back: string, text: string)
    requires text == front + back
    ensures forall i :: 0 <= i < |front| ==> text[i] == front[i]
  {
  }

  /** Inserting entries gives the configuration generated with these entries behind the others. */
  lemma InsertAppends(aliases: seq<Alias>, additions: seq<Alias>, text: string, open: int, close: int)
    requires text == Generated(aliases) && NoReturn(text)
    requires close == |text| - |Closing()| && open == |text| - |TableText(aliases)|
    ensures 0 <= open < close < |text| && Insert(text, open, close, additions) == Generated(aliases + additions)
  {
    hide Insert, Generated, Front, Lines, Spaces, Opening, Closing, TableText, NoReturn;
    Measures(aliases);
    FrontEnds(aliases);
    ClosingStarts();
    TwelveSpaces();
    InsertAt(Front(aliases), open, aliases != [], 8, Closing(), text, additions);
    GeneratedMore(aliases, additions);
  }

  lemma Measures(aliases: seq<Alias>)
    ensures Generated(aliases) == Front(aliases) + Spaces(8) + Closing()
    ensures |Generated(aliases)| - |Closing()| == |Front(aliases)| + 8
    ensures |Generated(aliases)| - |TableText(aliases)| == |Opening()| - 2
  {
    hide Lines, Spaces, Opening, Closing;
  }

  lemma GeneratedMore(aliases: seq<Alias>, additions: seq<Alias>)
    ensures Generated(aliases + additions) ==
      Front(aliases) + Lines(Spaces(12), "\n", additions) + (Spaces(8) + Closing())
  {
    LinesAppend(Spaces(12), "\n", aliases, additions);
    hide Lines, Spaces, Opening, Closing;
    Reassociates(Opening(), Body(aliases), Lines(Spaces(12), "\n", additions), Spaces(8), Closing());
  }

  lemma Reassociates(a: string, b: string, c: string, d: string, e: string)
    ensures a + b + c + (d + e) == a + (b + c) + d + e
  {
  }

  // ----- updating a generated configuration -----

  predicate Clean(aliases: seq<Alias>) {
    forall i :: 0 <= i < |aliases| ==> NoReturn(aliases[i].name) && NoReturn(aliases[i].path)
  }

  lemma {:induction false} EscapeClean(s: string)
    requires NoReturn(s)
    ensures NoReturn(Escape(s))
    decreases |s|
  {
    if s != [] {
      EscapeClean(s[..|s| - 1]);
    }
  }

  lemma {:induction false} BodyClean(aliases: seq<Alias>)
    requires Clean(aliases)
    ensures NoReturn(Body(aliases))
    decreases |aliases|
  {
    hide Escape, Spaces;
    if aliases != [] {
      var init, last := aliases[..|aliases| - 1], aliases[|aliases| - 1];
      BodyClean(init);
      EscapeClean(last.name);
      EscapeClean(last.path);
      SpacesClean(12);
      assert Body(aliases) == Body(init) + (Spaces(12) + Entry(last) + "\n");
      assert NoReturn(Entry(last));
    }
  }

  lemma {:induction false} SpacesClean(k: nat)
    ensures NoReturn(Spaces(k))
  {
    if k > 0 {
      SpacesClean(k - 1);
    }
  }

  lemma GeneratedClean(aliases: seq<Alias>)
    requires Clean(aliases)
    ensures NoReturn(Generated(aliases))
  {
    BodyClean(aliases);
    SpacesClean(4);
    SpacesClean(8);
    hide Spaces, Lines;
    assert NoReturn(Opening()) && NoReturn(Closing());
    assert Generated(aliases) == Opening() + Body(aliases) + Spaces(8) + Closing();
  }

  /** The entries whose name the table does not have yet. */
  function Fresh(known: seq<Alias>, aliases: seq<Alias>): (r: seq<Alias>) {
    if aliases == [] then []
    else
      var last := aliases[|aliases| - 1];
      Fresh(known, aliases[..|aliases| - 1]) + if Lookup(known, last.name).None? then [last] else []
  }

  predicate Compatible(safePath: string -> bool, known: seq<Alias>, a: Alias) {
    IsSafeName(a.name) && safePath(a.path) && (Lookup(known, a.name).Some? ==> Lookup(known, a.name).value == a.path)
  }

  predicate AllCompatible(safePath: string -> bool, known: seq<Alias>, aliases: seq<Alias>) {
    forall i :: 0 <= i < |aliases| ==> Compatible(safePath, known, aliases[i])
  }

  function PlaceOf(known: seq<Alias>): (r: Place) {
    Place(TableText(known), Closing())
  }

  lemma CheckIs(safePath: string -> bool, known: seq<Alias>, a: Alias)
    ensures TableText(known) != []
    ensures var c := CheckAlias(safePath, PlaceOf(known), a);
      && (c.Present? || c.New? <==> Compatible(safePath, known, a))
      && (Compatible(safePath, known, a) ==> (c.New? <==> Lookup(known, a.name).None?))
  {
    hide Body, Closing, Spaces;
    AliasIsFound(known, a.name);
    hide FindAlias, Lookup;
  }

  lemma {:induction false} AdditionsAreFresh(safePath: string -> bool, known: seq<Alias>, aliases: seq<Alias>)
    requires AllCompatible(safePath, known, aliases)
    ensures TableText(known) != [] && Additions(safePath, PlaceOf(known), aliases) == Fresh(known, aliases)
    decreases |aliases|
  {
    hide CheckAlias, Lookup, TableText, Compatible;
    TableTextStarts(known);
    if aliases != [] {
      AdditionsAreFresh(safePath, known, aliases[..|aliases| - 1]);
      CheckIs(safePath, known, aliases[|aliases| - 1]);
    }
  }

  lemma TableTextStarts(known: seq<Alias>)
    ensures TableText(known) != []
  {
    hide Body, Spaces, Closing;
  }

  lemma AcceptableIs(safePath: string -> bool, known: seq<Alias>, aliases: seq<Alias>)
    ensures TableText(known) != []
    ensures Acceptable(safePath, PlaceOf(known), aliases) <==> AllCompatible(safePath, known, aliases)
  {
    hide CheckAlias, TableText, Compatible;
    TableTextStarts(known);
    forall i | 0 <= i < |aliases|
      ensures var check := CheckAlias(safePath, PlaceOf(known), aliases[i]);
        check.Present? || check.New? <==> Compatible(safePath, known, aliases[i])
    {
      CheckIs(safePath, known, aliases[i]);
    }
  }

  /** Updating a generated configuration: refused exactly when an alias is unsafe or bound to another
      path, and otherwise the configuration generated with the new aliases behind the old ones. */
  lemma UpdateIsRegenerate(safePath: string -> bool, known: seq<Alias>, aliases: seq<Alias>)
    requires Clean(known)
    ensures UpdateAliases(safePath, Generated(known), aliases) ==
      if !AllCompatible(safePath, known, aliases) then Refused
      else Updated(Generated(known + Fresh(known, aliases)), Fresh(known, aliases) != [])
  {
    hide Generated, TableText, Closing, Insert, FindTable, NoReturn, Clean, Acceptable, AllCompatible, Additions, Fresh;
    NothingNew(safePath, known);
    if aliases != [] {
      TableIsFound(known);
      AcceptableIs(safePath, known, aliases);
      GeneratedClean(known);
      if AllCompatible(safePath, known, aliases) {
        AdditionsAreFresh(safePath, known, aliases);
        var text := Generated(known);
        InsertAppends(known, Fresh(known, aliases), text, |text| - |TableText(known)|, |text| - |Closing()|);
      }
    }
  }

  lemma NothingNew(safePath: string -> bool, known: seq<Alias>)
    ensures Fresh(known, []) == [] && AllCompatible(safePath, known, []) && known + [] == known
  {
  }

  ghost predicate DistinctNames(aliases: seq<Alias>) {
    forall j, k :: 0 <= j < k < |aliases| ==> aliases[j].name != aliases[k].name
  }

  predicate AllSafe(safePath: string -> bool, aliases: seq<Alias>) {
    forall i :: 0 <= i < |aliases| ==> IsSafeName(aliases[i].name) && safePath(aliases[i].path)
  }

  lemma {:induction false} NoneFresh(known: seq<Alias>, aliases: seq<Alias>)
    requires forall i :: 0 <= i < |aliases| ==> Lookup(known, aliases[i].name).Some?
    ensures Fresh(known, aliases) == []
    decreases |aliases|
  {
    hide Lookup;
    if aliases != [] {
      NoneFresh(known, aliases[..|aliases| - 1]);
    }
  }

  lemma {:induction false} AllFresh(known: seq<Alias>, aliases: seq<Alias>)
    requires forall i :: 0 <= i < |aliases| ==> Lookup(known, aliases[i].name).None?
    ensures Fresh(known, aliases) == aliases
    decreases |aliases|
  {
    hide Lookup;
    if aliases != [] {
      AllFresh(known, aliases[..|aliases| - 1]);
      assert aliases == aliases[..|aliases| - 1] + [aliases[|aliases| - 1]];
    }
  }

  /** Applying the same aliases again changes nothing. */
  lemma ReapplyChangesNothing(safePath: string -> bool, aliases: seq<Alias>)
    requires Clean(aliases) && DistinctNames(aliases) && AllSafe(safePath, aliases)
    ensures UpdateAliases(safePath, Generated(aliases), aliases) == Updated(Generated(aliases), false)
  {
    hide UpdateAliases, Generated, IsSafeName, Lookup;
    forall i | 0 <= i < |aliases|
      ensures Lookup(aliases, aliases[i].name) == Some(aliases[i].path)
    {
      LookupDistinct(aliases, i);
    }
    NoneFresh(aliases, aliases);
    UpdateIsRegenerate(safePath, aliases, aliases);
    assert aliases + [] == aliases;
  }

  /** Updating with other aliases is, byte for byte, generating both lists. */
  lemma DisjointUpdateAppends(safePath: string -> bool, known: seq<Alias>, aliases: seq<Alias>)
    requires Clean(known) && AllSafe(safePath, aliases) && aliases != []
    requires forall i :: 0 <= i < |aliases| ==> Lookup(known, aliases[i].name).None?
    ensures UpdateAliases(safePath, Generated(known), aliases) == Updated(Generated(known + aliases), true)
  {
    hide UpdateAliases, Generated, IsSafeName, Lookup;
    AllFresh(known, aliases);
    UpdateIsRegenerate(safePath, known, aliases);
  }
}
